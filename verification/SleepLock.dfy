/**
 Sleep, wakeup and kill of kernel/proc.c, and the sleep locks of kernel/sleeplock.c on top of them, as
 a state machine over every interleaving of any number of processes, channels and spin locks.

 A channel is what a process sleeps on. It has a condition, `ready`, and a spin lock that guards the
 condition; channels may share a spin lock, as the buffers of the disk driver do. A sleep lock is a
 channel whose condition is that the lock is free. Any other channel is an event: its condition comes
 and goes under the spin lock, and whoever makes it true calls wakeup. A process may hold any number
 of sleep locks while it sleeps on any channel.

 Each process has its own p->lock. The scheduler runs on the other side of the context switch: a
 process that switches away leaves its p->lock to the scheduler, which releases it, and a process that
 is switched to finds its p->lock held for it. Fields guarded by a lock change together with one
 operation on that lock.
 */
module SleepLock {
  import opened Common

  datatype RunState = RUNNABLE | RUNNING | SLEEPING

  /** Who holds a p->lock: the process itself, another process, or the scheduler of some CPU. */
  datatype Holder = Own | By(process: nat) | Scheduler

  datatype Pc =
    | Outside                  // in none of the procedures below
    | Spin(c: nat)             // acquiresleep, or a loop around sleep: spinning on c's spin lock
    | Test(c: nat)             // holds it, about to look at the condition
    | SleepSpin(c: nat)        // sleep: holds it, spinning on its own p->lock
    | SleepLocked(c: nat)      // sleep: holds both
    | Going(c: nat)            // sleep: holds its p->lock only
    | Asleep(c: nat)           // sleep: inside sched
    | RaiseSpin(c: nat)        // releasesleep, or a signal: spinning on c's spin lock
    | Scan(c: nat, k: nat)     // wakeup(c): holds the spin lock, next is process k
    | Scanning(c: nat, k: nat) // wakeup(c): holds process k's lock too
    | Killing(k: nat)          // kill: holds process k's lock

  /** `holds` are the sleep locks whose acquiresleep has returned and whose releasesleep has not been
      called. */
  datatype Proc = Proc(state: RunState, chan: Option<nat>, killed: bool, pc: Pc, lock: Option<Holder>, holds: set<nat>)

  datatype Chan = Chan(lk: nat, isLock: bool, ready: bool, pid: Option<nat>)

  /** lks[l] is the process that holds spin lock l. */
  datatype State = State(procs: seq<Proc>, chans: seq<Chan>, lks: seq<Option<nat>>)

  datatype Step =
    | CallWait(chan: nat) | AcquireLk | TestReady | GiveUp | LockSelf | ReleaseLk | SwitchOut | Woken
    | CallRaise(chan: nat) | Raise | ScanSkip | ScanLock | ScanWake | ScanDone
    | Clear(chan: nat)
    | KillLock(victim: nat) | KillWake | KillSelf
    | Yield | YieldReturn
    | SchedulerRelease | SchedulerPick

  /** The process holds no spin lock here, so a timer interrupt may make it yield. */
  predicate Interruptible(pc: Pc) {
    pc.Outside? || pc.Spin? || pc.RaiseSpin?
  }

  predicate LkFree(s: State, c: nat) {
    c < |s.chans| && s.chans[c].lk < |s.lks| && s.lks[s.chans[c].lk] == None
  }

  /** The step can happen now, on process i. */
  predicate Enabled(s: State, i: nat, step: Step) {
    i < |s.procs| &&
    var p, n := s.procs[i], |s.procs|;
    match step
    case SchedulerRelease => p.lock == Some(Scheduler)
    case SchedulerPick => p.lock == None && p.state == RUNNABLE
    case Yield => p.state == RUNNING && p.lock == None && Interruptible(p.pc)
    case YieldReturn => p.state == RUNNING && p.lock == Some(Own) && Interruptible(p.pc)
    case Woken => p.state == RUNNING && p.lock == Some(Own) && p.pc.Asleep?
    case ReleaseLk => p.state == RUNNING && p.pc.SleepLocked? && p.pc.c < |s.chans| && s.chans[p.pc.c].lk < |s.lks|
    case SwitchOut => p.state == RUNNING && p.pc.Going?
    case CallWait(c) => p.state == RUNNING && p.lock != Some(Own) && p.pc == Outside && c < |s.chans|
    case AcquireLk => p.state == RUNNING && p.lock != Some(Own) && p.pc.Spin? && LkFree(s, p.pc.c)
    case TestReady => p.state == RUNNING && p.pc.Test? && p.pc.c < |s.chans| && s.chans[p.pc.c].lk < |s.lks|
    case GiveUp =>
      p.state == RUNNING && p.pc.Test? && p.pc.c < |s.chans| && s.chans[p.pc.c].lk < |s.lks|
      && !s.chans[p.pc.c].isLock && p.killed
    case LockSelf => p.state == RUNNING && p.pc.SleepSpin? && p.lock == None
    case CallRaise(c) =>
      p.state == RUNNING && p.lock != Some(Own) && p.pc == Outside && c < |s.chans| &&
        (s.chans[c].isLock ==> c in p.holds)
    case Raise => p.state == RUNNING && p.lock != Some(Own) && p.pc.RaiseSpin? && LkFree(s, p.pc.c)
    case ScanSkip => p.state == RUNNING && p.pc.Scan? && p.pc.k == i
    case ScanLock => p.state == RUNNING && p.pc.Scan? && p.pc.k < n && p.pc.k != i && s.procs[p.pc.k].lock == None
    case ScanWake => p.state == RUNNING && p.pc.Scanning? && p.pc.k < n && p.pc.k != i
    case ScanDone =>
      p.state == RUNNING && p.pc.Scan? && p.pc.k == n && p.pc.c < |s.chans| && s.chans[p.pc.c].lk < |s.lks|
    case Clear(c) => p.state == RUNNING && p.lock != Some(Own) && p.pc == Outside && LkFree(s, c) && !s.chans[c].isLock
    case KillLock(v) =>
      p.state == RUNNING && p.lock != Some(Own) && p.pc == Outside && v < n && v != i && s.procs[v].lock == None
    case KillSelf => p.state == RUNNING && p.lock == None && p.pc == Outside
    case KillWake => p.state == RUNNING && p.pc.Killing? && p.pc.k < n && p.pc.k != i
  }

  function Put(s: State, i: nat, p: Proc): State
    requires i < |s.procs|
  {
    s.(procs := s.procs[i := p])
  }

  /** The spin lock of channel c gets another holder, or none. */
  function SetLk(s: State, c: nat, holder: Option<nat>): State
    requires c < |s.chans| && s.chans[c].lk < |s.lks|
  {
    s.(lks := s.lks[s.chans[c].lk := holder])
  }

  function SetChan(s: State, c: nat, ready: bool, pid: Option<nat>): State
    requires c < |s.chans|
  {
    s.(chans := s.chans[c := s.chans[c].(ready := ready, pid := pid)])
  }

  /** wakeup wakes sleepers on its channel, kill any sleeper. */
  function Wake(p: Proc, only: Option<nat>): Proc {
    if p.state == SLEEPING && (only.Some? ==> p.chan == only) then p.(state := RUNNABLE) else p
  }

  function Next(s: State, i: nat, step: Step): (r: State)
    requires Enabled(s, i, step)
    ensures |r.procs| == |s.procs| && |r.chans| == |s.chans| && |r.lks| == |s.lks|
  {
    var p := s.procs[i];
    match step
    case SchedulerRelease => Put(s, i, p.(lock := None))
    case SchedulerPick => Put(s, i, p.(state := RUNNING, lock := Some(Own)))
    case Yield => Put(s, i, p.(state := RUNNABLE, lock := Some(Scheduler)))
    case YieldReturn => Put(s, i, p.(lock := None))
    case Woken => Put(s, i, p.(chan := None, lock := None, pc := Spin(p.pc.c)))
    case ReleaseLk => SetLk(Put(s, i, p.(pc := Going(p.pc.c))), p.pc.c, None)
    case SwitchOut =>
      Put(s, i, p.(state := SLEEPING, chan := Some(p.pc.c), lock := Some(Scheduler), pc := Asleep(p.pc.c)))
    case CallWait(c) => Put(s, i, p.(pc := Spin(c)))
    case AcquireLk => SetLk(Put(s, i, p.(pc := Test(p.pc.c))), p.pc.c, Some(i))
    case TestReady =>
      var c := p.pc.c;
      if !s.chans[c].ready then Put(s, i, p.(pc := SleepSpin(c)))
      else if s.chans[c].isLock
        then SetLk(SetChan(Put(s, i, p.(pc := Outside, holds := p.holds + {c})), c, false, Some(i)), c, None)
      else SetLk(Put(s, i, p.(pc := Outside)), c, None)
    case GiveUp => SetLk(Put(s, i, p.(pc := Outside)), p.pc.c, None)
    case LockSelf => Put(s, i, p.(pc := SleepLocked(p.pc.c), lock := Some(Own)))
    case CallRaise(c) => Put(s, i, p.(pc := RaiseSpin(c), holds := p.holds - {c}))
    case Raise => SetLk(SetChan(Put(s, i, p.(pc := Scan(p.pc.c, 0))), p.pc.c, true, None), p.pc.c, Some(i))
    case ScanSkip => Put(s, i, p.(pc := Scan(p.pc.c, i + 1)))
    case ScanLock => Put(Put(s, i, p.(pc := Scanning(p.pc.c, p.pc.k))), p.pc.k, s.procs[p.pc.k].(lock := Some(By(i))))
    case ScanWake =>
      Put(Put(s, i, p.(pc := Scan(p.pc.c, p.pc.k + 1))), p.pc.k, Wake(s.procs[p.pc.k], Some(p.pc.c)).(lock := None))
    case ScanDone => SetLk(Put(s, i, p.(pc := Outside)), p.pc.c, None)
    case Clear(c) => SetChan(s, c, false, None)
    case KillLock(v) => Put(Put(s, i, p.(pc := Killing(v))), v, s.procs[v].(lock := Some(By(i))))
    case KillSelf => Put(s, i, p.(killed := true))
    case KillWake =>
      Put(Put(s, i, p.(pc := Outside)), p.pc.k, Wake(s.procs[p.pc.k], None).(killed := true, lock := None))
  }

  /** At boot every process is outside, nobody holds anything, every sleep lock is free. */
  ghost predicate Initial(s: State) {
    && (forall l | 0 <= l < |s.lks| :: s.lks[l] == None)
    && (forall c | 0 <= c < |s.chans| ::
      s.chans[c].lk < |s.lks| && s.chans[c].pid == None && (s.chans[c].isLock ==> s.chans[c].ready))
    && (forall i | 0 <= i < |s.procs| ::
          s.procs[i].pc == Outside && s.procs[i].state == RUNNABLE && s.procs[i].lock == None && s.procs[i].chan == None
          && s.procs[i].holds == {})
  }

  // The invariant.

  /** On its way into SLEEPING on channel c, or there: a wakeup missed now is missed for good. */
  predicate Pending(p: Proc, c: nat) {
    p.pc == Going(c) || (p.state == SLEEPING && p.pc == Asleep(c))
  }

  /** The channel whose spin lock a process holds. */
  function LkChan(pc: Pc): Option<nat> {
    if pc.Test? || pc.SleepSpin? || pc.SleepLocked? || pc.Scan? || pc.Scanning? then Some(pc.c) else None
  }

  /** Spin lock l is held by process i exactly when i's position says so. */
  predicate LkOk(s: State, i: nat, l: nat)
    requires i < |s.procs| && l < |s.lks|
  {
    s.lks[l] == Some(i) <==>
      LkChan(s.procs[i].pc).Some? && LkChan(s.procs[i].pc).value < |s.chans| &&
      s.chans[LkChan(s.procs[i].pc).value].lk == l
  }

  /** Sleep lock c is marked with process i exactly while i holds it, or is on its way to release it. */
  predicate PidOk(s: State, i: nat, c: nat)
    requires i < |s.procs| && c < |s.chans|
  {
    if s.chans[c].isLock then s.chans[c].pid == Some(i) <==> c in s.procs[i].holds || s.procs[i].pc == RaiseSpin(c)
    else c !in s.procs[i].holds
  }

  /** It is free exactly when it is marked with nobody. */
  predicate ChanOk(s: State, c: nat)
    requires c < |s.chans|
  {
    var ch := s.chans[c];
    && ch.lk < |s.lks|
    && (if ch.isLock then ch.ready <==> ch.pid == None else ch.pid == None)
    && (ch.pid.Some? ==> ch.pid.value < |s.procs|)
  }

  /** One process's own fields agree with where it is. */
  predicate Local(p: Proc) {
    && p.chan == (if p.pc.Asleep? then Some(p.pc.c) else None)
    && (p.state == SLEEPING ==> p.pc.Asleep?)
    && (p.pc.SleepLocked? || p.pc.Going? ==> p.lock == Some(Own))
    && (p.lock == Some(Own) ==>
      p.state == RUNNING && (p.pc.SleepLocked? || p.pc.Going? || p.pc.Asleep? || Interruptible(p.pc)))
    && (p.lock == Some(Scheduler) ==> p.state != RUNNING)
    && (p.state == RUNNING || p.pc.Asleep? || Interruptible(p.pc))
    && (p.pc.Asleep? && p.state == RUNNING ==> p.lock == Some(Own))
    && (p.pc.RaiseSpin? ==> p.pc.c !in p.holds)
  }

  predicate WorksOn(pc: Pc, k: nat) {
    (pc.Scanning? && pc.k == k) || pc == Killing(k)
  }

  /** Process k's lock is held by process i exactly when i is working on k. */
  predicate BorrowOk(s: State, i: nat, k: nat)
    requires i < |s.procs| && k < |s.procs|
  {
    s.procs[k].lock == Some(By(i)) <==> WorksOn(s.procs[i].pc, k)
  }

  predicate InRange(s: State, i: nat)
    requires i < |s.procs|
  {
    var p, n := s.procs[i], |s.procs|;
    && (p.pc.Scanning? || p.pc.Killing? ==> p.pc.k < n && p.pc.k != i)
    && (p.pc.Scan? ==> p.pc.k <= n)
    && (p.lock.Some? && p.lock.value.By? ==> p.lock.value.process < n)
    && (!p.pc.Outside? && !p.pc.Killing? ==> p.pc.c < |s.chans|)
  }

  /** Who goes to sleep has seen the condition false, who calls wakeup has made it true. */
  predicate SeenOk(s: State, i: nat)
    requires i < |s.procs|
  {
    var pc := s.procs[i].pc;
    && ((pc.SleepSpin? || pc.SleepLocked?) && pc.c < |s.chans| ==> !s.chans[pc.c].ready)
    && ((pc.Scan? || pc.Scanning?) && pc.c < |s.chans| ==> s.chans[pc.c].ready)
  }

  /** A wakeup of channel c runs that has yet to come to process r. */
  predicate Coming(s: State, c: nat, r: nat)
    requires c < |s.chans|
  {
    s.chans[c].lk < |s.lks| && s.lks[s.chans[c].lk].Some? &&
    var i := s.lks[s.chans[c].lk].value;
    i < |s.procs| && (s.procs[i].pc.Scan? || s.procs[i].pc.Scanning?) && s.procs[i].pc.c == c && s.procs[i].pc.k <= r
  }

  /** When the condition of c is true, a process that sleeps on c, or is about to, will be woken. */
  predicate NotMissed(s: State, c: nat, r: nat)
    requires c < |s.chans| && r < |s.procs|
  {
    s.chans[c].ready && Pending(s.procs[r], c) ==> Coming(s, c, r)
  }

  /** Everything about process i alone. */
  predicate ProcOk(s: State, i: nat)
    requires i < |s.procs|
  {
    Local(s.procs[i]) && InRange(s, i) && SeenOk(s, i)
  }

  ghost predicate Inv(s: State) {
    && (forall l: nat | l < |s.lks| :: s.lks[l].Some? ==> s.lks[l].value < |s.procs|)
    && (forall c: nat | c < |s.chans| :: ChanOk(s, c))
    && (forall i: nat | i < |s.procs| :: ProcOk(s, i))
    && (forall i: nat, l: nat | i < |s.procs| && l < |s.lks| :: LkOk(s, i, l))
    && (forall i: nat, c: nat | i < |s.procs| && c < |s.chans| :: PidOk(s, i, c))
    && (forall i: nat, k: nat | i < |s.procs| && k < |s.procs| :: BorrowOk(s, i, k))
    && (forall c: nat, r: nat | c < |s.chans| && r < |s.procs| :: NotMissed(s, c, r))
  }

  lemma InitialInv(s: State)
    requires Initial(s)
    ensures Inv(s)
  {
  }

  // Every step keeps it, piece by piece.

  lemma Fetch(s: State, i: nat, j: nat)
    requires Inv(s) && i < |s.procs| && j < |s.procs|
    ensures ProcOk(s, i) && ProcOk(s, j) && BorrowOk(s, i, j) && BorrowOk(s, j, i)
  {
  }

  lemma FetchChan(s: State, i: nat, c: nat)
    requires Inv(s) && i < |s.procs| && c < |s.chans|
    ensures ChanOk(s, c) && PidOk(s, i, c) && LkOk(s, i, s.chans[c].lk)
  {
  }

  lemma FetchLk(s: State, i: nat, l: nat)
    requires Inv(s) && i < |s.procs| && l < |s.lks|
    ensures LkOk(s, i, l) && (s.lks[l].Some? ==> s.lks[l].value < |s.procs|)
  {
  }

  lemma FetchWait(s: State, c: nat, r: nat)
    requires Inv(s) && c < |s.chans| && r < |s.procs|
    ensures NotMissed(s, c, r)
  {
  }

  /** The channel that the step is about. */
  function About(s: State, i: nat, step: Step): Option<nat>
    requires Enabled(s, i, step)
  {
    match step
    case Clear(c) => Some(c)
    case ReleaseLk => Some(s.procs[i].pc.c)
    case AcquireLk => Some(s.procs[i].pc.c)
    case TestReady => Some(s.procs[i].pc.c)
    case GiveUp => Some(s.procs[i].pc.c)
    case Raise => Some(s.procs[i].pc.c)
    case ScanDone => Some(s.procs[i].pc.c)
    case _ => None
  }

  /** Other channels keep their conditions and other spin locks their holders. */
  lemma Untouched(s: State, i: nat, step: Step)
    requires Enabled(s, i, step)
    ensures var s', a := Next(s, i, step), About(s, i, step);
      && (a.None? ==> s'.chans == s.chans && s'.lks == s.lks)
      && (a.Some? ==> a.value < |s.chans| && s.chans[a.value].lk < |s.lks|)
      && (a.Some? ==> s'.chans == s.chans[a.value := s'.chans[a.value]] && s'.chans[a.value].lk == s.chans[a.value].lk)
      && (a.Some? ==> s'.chans[a.value].isLock == s.chans[a.value].isLock)
      && (a.Some? ==> s'.lks == s.lks[s.chans[a.value].lk := s'.lks[s.chans[a.value].lk]])
  {
  }

  lemma StepLocal(s: State, i: nat, step: Step, j: nat)
    requires Inv(s) && Enabled(s, i, step) && j < |s.procs|
    ensures Local(Next(s, i, step).procs[j])
  {
    hide Inv, SeenOk, InRange;
    Fetch(s, i, j);
  }

  lemma StepInRange(s: State, i: nat, step: Step, j: nat)
    requires Inv(s) && Enabled(s, i, step) && j < |s.procs|
    ensures InRange(Next(s, i, step), j)
  {
    hide Inv, SeenOk, Local, BorrowOk;
    Fetch(s, i, j);
  }

  lemma StepBorrow(s: State, i: nat, step: Step, j: nat, k: nat)
    requires Inv(s) && Enabled(s, i, step) && j < |s.procs| && k < |s.procs|
    ensures BorrowOk(Next(s, i, step), j, k)
  {
    hide Inv, SeenOk, InRange;
    Fetch(s, i, k);
    Fetch(s, j, k);
  }

  /** Facts about the step's channel, for process j. */
  lemma FetchAbout(s: State, i: nat, step: Step, j: nat)
    requires Inv(s) && Enabled(s, i, step) && j < |s.procs|
    ensures var a := About(s, i, step);
      && (a.Some? ==> a.value < |s.chans| && ChanOk(s, a.value) && PidOk(s, i, a.value) && PidOk(s, j, a.value))
      && (a.Some? ==> LkOk(s, i, s.chans[a.value].lk) && LkOk(s, j, s.chans[a.value].lk))
  {
    hide Inv, ProcOk;
    Untouched(s, i, step);
    if About(s, i, step).Some? {
      FetchChan(s, i, About(s, i, step).value);
      FetchChan(s, j, About(s, i, step).value);
    }
  }

  /** What the step leaves alone: the places of other processes; spin locks that others hold, and the
      conditions of their channels. */
  ghost predicate Guarded(s: State, i: nat, s': State) {
    && |s'.procs| == |s.procs| && |s'.chans| == |s.chans| && |s'.lks| == |s.lks|
    && (forall j: nat | j < |s.procs| && j != i :: s'.procs[j].pc == s.procs[j].pc)
    && (forall j: nat, c | j < |s.procs| && j != i :: Pending(s'.procs[j], c) ==> Pending(s.procs[j], c))
    && (forall l: nat | l < |s.lks| && s'.lks[l] != s.lks[l] :: MineOrFree(s.lks[l], i) && MineOrFree(s'.lks[l], i))
    && (forall c: nat | c < |s.chans| :: s'.chans[c].lk == s.chans[c].lk && ChanGuarded(s, i, s', c))
  }

  predicate MineOrFree(holder: Option<nat>, i: nat) {
    holder.Some? ==> holder.value == i
  }

  predicate ChanGuarded(s: State, i: nat, s': State, c: nat)
    requires c < |s.chans| && c < |s'.chans|
  {
    s'.chans[c].ready != s.chans[c].ready ==> s.chans[c].lk < |s.lks| && MineOrFree(s.lks[s.chans[c].lk], i)
  }

  lemma OthersStay(s: State, i: nat, step: Step, j: nat, c: nat)
    requires Enabled(s, i, step) && j < |s.procs| && j != i
    ensures var s' := Next(s, i, step);
      s'.procs[j].pc == s.procs[j].pc && (Pending(s'.procs[j], c) ==> Pending(s.procs[j], c))
  {
  }

  /** The step's own channel: its spin lock is free, or the process has it. */
  lemma AboutGuarded(s: State, i: nat, step: Step)
    requires Inv(s) && Enabled(s, i, step) && About(s, i, step).Some?
    ensures var a := About(s, i, step).value;
      && a < |s.chans| && s.chans[a].lk < |s.lks| && MineOrFree(s.lks[s.chans[a].lk], i)
      && MineOrFree(Next(s, i, step).lks[s.chans[a].lk], i)
  {
    hide Inv, PidOk, ProcOk;
    FetchAbout(s, i, step, i);
  }

  lemma StepGuarded(s: State, i: nat, step: Step)
    requires Inv(s) && Enabled(s, i, step)
    ensures Guarded(s, i, Next(s, i, step))
  {
    hide Inv, Next, Enabled, About, Pending;
    Untouched(s, i, step);
    if About(s, i, step).Some? {
      AboutGuarded(s, i, step);
    }
    var s' := Next(s, i, step);
    forall j: nat, c | j < |s.procs| && j != i
      ensures s'.procs[j].pc == s.procs[j].pc && (Pending(s'.procs[j], c) ==> Pending(s.procs[j], c))
    {
      OthersStay(s, i, step, j, c);
    }
    forall j: nat | j < |s.procs| && j != i ensures s'.procs[j].pc == s.procs[j].pc {
      OthersStay(s, i, step, j, 0);
    }
  }

  lemma SeenSelf(s: State, i: nat, step: Step)
    requires Inv(s) && Enabled(s, i, step)
    ensures SeenOk(Next(s, i, step), i)
  {
    hide Inv, PidOk, Local, BorrowOk;
    Fetch(s, i, i);
  }

  lemma StepSeen(s: State, i: nat, step: Step, j: nat)
    requires Inv(s) && Enabled(s, i, step) && j < |s.procs|
    ensures SeenOk(Next(s, i, step), j)
  {
    hide Inv, Next, Enabled, Local, BorrowOk, PidOk, Pending;
    if j == i {
      SeenSelf(s, i, step);
    } else {
      StepGuarded(s, i, step);
      Fetch(s, j, j);
      if LkChan(s.procs[j].pc).Some? {
        FetchChan(s, j, s.procs[j].pc.c);
      }
    }
  }

  lemma LkSelf(s: State, i: nat, step: Step, l: nat)
    requires Inv(s) && Enabled(s, i, step) && l < |s.lks|
    ensures LkOk(Next(s, i, step), i, l)
  {
    hide Inv, PidOk, Local, BorrowOk, SeenOk;
    Fetch(s, i, i);
    FetchLk(s, i, l);
  }

  lemma StepLk(s: State, i: nat, step: Step, j: nat, l: nat)
    requires Inv(s) && Enabled(s, i, step) && j < |s.procs| && l < |s.lks|
    ensures LkOk(Next(s, i, step), j, l)
  {
    hide Inv, Next, Enabled, Pending;
    if j == i {
      LkSelf(s, i, step, l);
    } else {
      StepGuarded(s, i, step);
      FetchLk(s, j, l);
    }
  }

  lemma PidSelf(s: State, i: nat, step: Step, c: nat)
    requires Inv(s) && Enabled(s, i, step) && c < |s.chans|
    ensures PidOk(Next(s, i, step), i, c)
  {
    hide Inv, BorrowOk, SeenOk, LkOk;
    Fetch(s, i, i);
    FetchChan(s, i, c);
  }

  /** Only the mark of the process itself comes and goes. */
  lemma PidGuarded(s: State, i: nat, step: Step, j: nat, c: nat)
    requires Inv(s) && Enabled(s, i, step) && j < |s.procs| && j != i && c < |s.chans|
    ensures var s' := Next(s, i, step);
      && s'.procs[j].pc == s.procs[j].pc && s'.procs[j].holds == s.procs[j].holds
      && s'.chans[c].isLock == s.chans[c].isLock
      && (s'.chans[c].isLock ==> (s'.chans[c].pid == Some(j) <==> s.chans[c].pid == Some(j)))
  {
    hide Inv, BorrowOk, SeenOk, LkOk, Local, InRange;
    FetchChan(s, i, c);
  }

  lemma StepPid(s: State, i: nat, step: Step, j: nat, c: nat)
    requires Inv(s) && Enabled(s, i, step) && j < |s.procs| && c < |s.chans|
    ensures PidOk(Next(s, i, step), j, c)
  {
    hide Inv, Next, Enabled;
    if j == i {
      PidSelf(s, i, step, c);
    } else {
      PidGuarded(s, i, step, j, c);
      FetchChan(s, j, c);
    }
  }

  lemma StepChan(s: State, i: nat, step: Step, c: nat)
    requires Inv(s) && Enabled(s, i, step) && c < |s.chans|
    ensures ChanOk(Next(s, i, step), c)
  {
    hide Inv, BorrowOk, SeenOk, LkOk, Local;
    Fetch(s, i, i);
    FetchAbout(s, i, step, i);
    FetchChan(s, i, c);
  }

  /** A wakeup by another process goes on. */
  lemma StillComing(s: State, i: nat, s': State, c: nat, r: nat)
    requires Guarded(s, i, s') && c < |s.chans| && Coming(s, c, r) && s.lks[s.chans[c].lk] != Some(i)
    ensures Coming(s', c, r)
  {
    hide Pending;
  }

  /** The process's own wakeup goes on past it, or ends after the last process. */
  lemma ScanGoesOn(s: State, i: nat, step: Step, c: nat, r: nat)
    requires Inv(s) && Enabled(s, i, step) && c < |s.chans| && r < |s.procs| && Coming(s, c, r)
    requires s.lks[s.chans[c].lk] == Some(i)
    ensures NotMissed(Next(s, i, step), c, r)
  {
    hide Inv, PidOk, SeenOk;
    Fetch(s, i, r);
  }

  /** A process that becomes pending has seen the condition false, and one that makes the condition true
      begins a wakeup. */
  lemma NothingNew(s: State, i: nat, step: Step, c: nat, r: nat)
    requires Inv(s) && Enabled(s, i, step) && c < |s.chans| && r < |s.procs|
    requires !(s.chans[c].ready && Pending(s.procs[r], c))
    ensures NotMissed(Next(s, i, step), c, r)
  {
    hide Inv, PidOk, BorrowOk, LkOk;
    Fetch(s, i, r);
  }

  lemma StepNotMissed(s: State, i: nat, step: Step, c: nat, r: nat)
    requires Inv(s) && Enabled(s, i, step) && c < |s.chans| && r < |s.procs|
    ensures NotMissed(Next(s, i, step), c, r)
  {
    hide Inv, Next, Enabled, Pending, Coming, Guarded;
    FetchWait(s, c, r);
    if !(s.chans[c].ready && Pending(s.procs[r], c)) {
      NothingNew(s, i, step, c, r);
    } else if s.chans[c].lk < |s.lks| && s.lks[s.chans[c].lk] == Some(i) {
      ScanGoesOn(s, i, step, c, r);
    } else {
      FetchChan(s, r, c);
      StepGuarded(s, i, step);
      StillComing(s, i, Next(s, i, step), c, r);
    }
  }

  lemma StepLks(s: State, i: nat, step: Step, l: nat)
    requires Inv(s) && Enabled(s, i, step) && l < |s.lks|
    ensures var s' := Next(s, i, step); s'.lks[l].Some? ==> s'.lks[l].value < |s'.procs|
  {
    hide Inv, Next, Pending;
    FetchLk(s, i, l);
    StepGuarded(s, i, step);
  }

  /** Every step of every process and of the scheduler keeps the invariant. */
  lemma StepKeepsInv(s: State, i: nat, step: Step)
    requires Inv(s) && Enabled(s, i, step)
    ensures Inv(Next(s, i, step))
  {
    hide Next, Enabled, ChanOk, LkOk, PidOk, BorrowOk, NotMissed, Local, InRange, SeenOk;
    var s' := Next(s, i, step);
    forall l: nat | l < |s'.lks| ensures s'.lks[l].Some? ==> s'.lks[l].value < |s'.procs| {
      StepLks(s, i, step, l);
    }
    forall c: nat | c < |s'.chans| ensures ChanOk(s', c) {
      StepChan(s, i, step, c);
    }
    forall j: nat | j < |s'.procs| ensures ProcOk(s', j) {
      StepLocal(s, i, step, j);
      StepInRange(s, i, step, j);
      StepSeen(s, i, step, j);
    }
    forall j: nat, l: nat | j < |s'.procs| && l < |s'.lks| ensures LkOk(s', j, l) {
      StepLk(s, i, step, j, l);
    }
    forall j: nat, c: nat | j < |s'.procs| && c < |s'.chans| ensures PidOk(s', j, c) {
      StepPid(s, i, step, j, c);
    }
    forall j: nat, k: nat | j < |s'.procs| && k < |s'.procs| ensures BorrowOk(s', j, k) {
      StepBorrow(s, i, step, j, k);
    }
    forall c: nat, r: nat | c < |s'.chans| && r < |s'.procs| ensures NotMissed(s', c, r) {
      StepNotMissed(s, i, step, c, r);
    }
  }

  // Whole runs.

  ghost predicate Run(s: State, run: seq<(nat, Step)>)
    decreases |run|
  {
    run == [] || (Enabled(s, run[0].0, run[0].1) && Run(Next(s, run[0].0, run[0].1), run[1..]))
  }

  ghost function Final(s: State, run: seq<(nat, Step)>): State
    requires Run(s, run)
    decreases |run|
  {
    if run == [] then s else Final(Next(s, run[0].0, run[0].1), run[1..])
  }

  lemma {:induction false} RunKeepsInv(s: State, run: seq<(nat, Step)>)
    requires Inv(s) && Run(s, run)
    ensures Inv(Final(s, run))
    decreases |run|
  {
    if run != [] {
      StepKeepsInv(s, run[0].0, run[0].1);
      RunKeepsInv(Next(s, run[0].0, run[0].1), run[1..]);
    }
  }

  /** A state that some run from boot leads to. */
  ghost predicate Reachable(s: State) {
    exists s0, run :: Initial(s0) && Run(s0, run) && Final(s0, run) == s
  }

  lemma ReachableInv(s: State)
    requires Reachable(s)
    ensures Inv(s)
  {
    hide Initial, Inv, Final, Run;
    var s0, run :| Initial(s0) && Run(s0, run) && Final(s0, run) == s;
    InitialInv(s0);
    RunKeepsInv(s0, run);
  }

  /** Whatever the interleaving and whoever is killed, at most one process is between the return of
      acquiresleep and the call of releasesleep, for every sleep lock. */
  lemma MutualExclusion(s: State, c: nat, i: nat, j: nat)
    requires Reachable(s) && c < |s.chans| && s.chans[c].isLock && i < |s.procs| && j < |s.procs|
    ensures c in s.procs[i].holds && c in s.procs[j].holds ==> i == j
    ensures c in s.procs[i].holds ==> !s.chans[c].ready && s.chans[c].pid == Some(i)
  {
    hide Reachable, Inv;
    ReachableInv(s);
    FetchChan(s, i, c);
    FetchChan(s, j, c);
  }

  /** A sleep lock is marked held exactly while some process holds it or is on its way to release it. */
  lemma LockedIsHeld(s: State, c: nat)
    requires Reachable(s) && c < |s.chans| && s.chans[c].isLock && |s.procs| > 0
    ensures !s.chans[c].ready <==> exists i: nat | i < |s.procs| ::
      c in s.procs[i].holds || s.procs[i].pc == RaiseSpin(c)
  {
    hide Reachable, Inv;
    ReachableInv(s);
    FetchChan(s, 0, c);
    if !s.chans[c].ready {
      FetchChan(s, s.chans[c].pid.value, c);
    } else {
      forall i: nat | i < |s.procs| ensures !(c in s.procs[i].holds || s.procs[i].pc == RaiseSpin(c)) {
        FetchChan(s, i, c);
      }
    }
  }

  /** No wakeup is lost, on any channel: when its condition is true and its spin lock is not held, no
      process sleeps on it or is about to. So a free sleep lock has no sleeper. */
  lemma NoLostWakeup(s: State, c: nat, r: nat)
    requires Reachable(s) && c < |s.chans| && r < |s.procs|
    ensures s.chans[c].lk < |s.lks|
    ensures s.chans[c].ready && s.lks[s.chans[c].lk] == None ==> s.procs[r].pc != Going(c)
    ensures s.chans[c].ready && s.lks[s.chans[c].lk] == None ==>
      !(s.procs[r].state == SLEEPING && s.procs[r].chan == Some(c))
  {
    hide Reachable, Inv;
    ReachableInv(s);
    Fetch(s, r, r);
    FetchChan(s, r, c);
    FetchWait(s, c, r);
  }

  /** A wakeup that runs makes it true again: whoever still sleeps on a ready channel is ahead of it. */
  lemma WakeupIsComing(s: State, c: nat, r: nat)
    requires Reachable(s) && c < |s.chans| && r < |s.procs|
    ensures s.chans[c].ready && s.procs[r].state == SLEEPING && s.procs[r].chan == Some(c) ==> Coming(s, c, r)
  {
    hide Reachable, Inv, Coming;
    ReachableInv(s);
    Fetch(s, r, r);
    FetchWait(s, c, r);
  }

  /** sched finds no lock held but the process's own, so none of its panics can happen; the sleep locks
      it holds are no hindrance. */
  lemma SwitchHoldsOnlyOwnLock(s: State, i: nat, k: nat, l: nat)
    requires Reachable(s) && i < |s.procs| && k < |s.procs| && l < |s.lks|
    requires (s.procs[i].pc.Going? || Enabled(s, i, Yield))
    ensures s.lks[l] != Some(i) && s.procs[k].lock != Some(By(i))
  {
    hide Reachable, Inv;
    ReachableInv(s);
    Fetch(s, i, k);
    FetchLk(s, i, l);
  }

  /** The next step of whoever holds process k's lock. */
  function UnlockStep(s: State, k: nat): (nat, Step)
    requires k < |s.procs| && s.procs[k].lock.Some?
  {
    match s.procs[k].lock.value
    case Scheduler => (k, SchedulerRelease)
    case Own =>
      (k, if s.procs[k].pc.SleepLocked? then ReleaseLk
          else if s.procs[k].pc.Going? then SwitchOut
          else if s.procs[k].pc.Asleep? then Woken else YieldReturn)
    case By(i) => (i, if i < |s.procs| && s.procs[i].pc.Scanning? then ScanWake else KillWake)
  }

  predicate CanUnlock(s: State, k: nat) {
    k < |s.procs| && s.procs[k].lock.Some? && Enabled(s, UnlockStep(s, k).0, UnlockStep(s, k).1)
  }

  /** Nobody waits while holding a p->lock: its holder's next step is always possible. */
  lemma ProcLockHolderMoves(s: State, k: nat)
    requires Inv(s) && k < |s.procs| && s.procs[k].lock.Some?
    ensures CanUnlock(s, k)
  {
    hide Inv;
    Fetch(s, k, k);
    match s.procs[k].lock.value
    case By(i) =>
      Fetch(s, i, k);
      WorkerRuns(s, i);
    case Own =>
      if s.procs[k].pc.SleepLocked? {
        FetchChan(s, k, s.procs[k].pc.c);
      }
    case Scheduler =>
  }

  lemma WorkerRuns(s: State, i: nat)
    requires i < |s.procs| && ProcOk(s, i) && (s.procs[i].pc.Scanning? || s.procs[i].pc.Killing?)
    ensures s.procs[i].state == RUNNING && s.procs[i].pc.k < |s.procs| && s.procs[i].pc.k != i
  {
  }

  /** Process i, which holds a spin lock, spins on process k's lock. */
  predicate SpinsOn(s: State, i: nat, k: nat)
    requires i < |s.procs|
  {
    (s.procs[i].pc.SleepSpin? && k == i) || (s.procs[i].pc.Scan? && s.procs[i].pc.k == k)
  }

  ghost predicate CanMove(s: State, i: nat) {
    exists step :: Enabled(s, i, step)
  }

  ghost predicate WaitsForMover(s: State, i: nat) {
    i < |s.procs| && exists k: nat :: k < |s.procs| && SpinsOn(s, i, k) && CanUnlock(s, k)
  }

  /** The holder of any spin lock can move, or spins on a p->lock whose holder can: no spin lock deadlock. */
  lemma SpinLockHolderMoves(s: State, l: nat, i: nat)
    requires Inv(s) && l < |s.lks| && s.lks[l] == Some(i)
    ensures CanMove(s, i) || WaitsForMover(s, i)
  {
    hide Inv, CanUnlock;
    HolderIs(s, l, i);
    FetchLk(s, i, l);
    Fetch(s, i, i);
    var c := s.procs[i].pc.c;
    FetchChan(s, i, c);
    match s.procs[i].pc
    case Test(_) => assert Enabled(s, i, TestReady);
    case SleepSpin(_) =>
      if s.procs[i].lock == None {
        assert Enabled(s, i, LockSelf);
      } else {
        ProcLockHolderMoves(s, i);
        assert SpinsOn(s, i, i);
      }
    case SleepLocked(_) => assert Enabled(s, i, ReleaseLk);
    case Scanning(_, k) => assert Enabled(s, i, ScanWake);
    case Scan(_, k) =>
      if k == |s.procs| {
        assert Enabled(s, i, ScanDone);
      } else if k == i {
        assert Enabled(s, i, ScanSkip);
      } else if s.procs[k].lock == None {
        assert Enabled(s, i, ScanLock);
      } else {
        ProcLockHolderMoves(s, k);
        assert SpinsOn(s, i, k);
      }
  }

  lemma HolderIs(s: State, l: nat, i: nat)
    requires Inv(s) && l < |s.lks| && s.lks[l] == Some(i)
    ensures i < |s.procs|
  {
  }

  // Who wakes whom.

  /** Process i is about to wake process j: in a wakeup on the channel that j sleeps on, or in a kill of j. */
  predicate Wakes(s: State, i: nat, step: Step, j: nat) {
    && i < |s.procs| && j < |s.procs|
    && var pc := s.procs[i].pc;
       || (step.ScanWake? && pc.Scanning? && pc.k == j && s.procs[j].chan == Some(pc.c))
       || (step.KillWake? && pc == Killing(j))
  }

  /** A sleeping process is made runnable by a wakeup on its channel and by a kill, each of them, and by nothing
      else. */
  lemma WakesExactly(s: State, i: nat, step: Step, j: nat)
    requires Inv(s) && Enabled(s, i, step) && j < |s.procs| && s.procs[j].state == SLEEPING
    ensures Next(s, i, step).procs[j].state == if Wakes(s, i, step, j) then RUNNABLE else SLEEPING
  {
    hide Inv;
    Fetch(s, i, j);
  }

  /** Whether kill has hit process k, before the run or in it. */
  ghost predicate Struck(s: State, run: seq<(nat, Step)>, k: nat, was: bool)
    requires Run(s, run)
    decreases |run|
  {
    if run == [] then was
    else
      var (i, step) := run[0];
      Struck(Next(s, i, step), run[1..], k,
        was || (step.KillWake? && s.procs[i].pc == Killing(k)) || (step.KillSelf? && i == k))
  }

  lemma StepKilled(s: State, i: nat, step: Step, k: nat)
    requires Enabled(s, i, step) && k < |s.procs|
    ensures Next(s, i, step).procs[k].killed <==>
      || s.procs[k].killed || (step.KillWake? && s.procs[i].pc == Killing(k)) || (step.KillSelf? && i == k)
  {
  }

  /** A process is marked killed exactly if a kill has hit it. */
  lemma {:induction false} KilledExactly(s: State, run: seq<(nat, Step)>, k: nat)
    requires Run(s, run) && k < |s.procs|
    ensures k < |Final(s, run).procs| && (Final(s, run).procs[k].killed <==> Struck(s, run, k, s.procs[k].killed))
    decreases |run|
  {
    hide Enabled, Next;
    if run != [] {
      var (i, step) := run[0];
      StepKilled(s, i, step, k);
      KilledExactly(Next(s, i, step), run[1..], k);
    }
  }

  // A run: a process holds a sleep lock and sleeps on another channel.

  lemma {:induction false} Extend(s: State, run: seq<(nat, Step)>, i: nat, step: Step)
    requires Run(s, run) && Enabled(Final(s, run), i, step)
    ensures Run(s, run + [(i, step)]) && Final(s, run + [(i, step)]) == Next(Final(s, run), i, step)
    decreases |run|
  {
    hide Next, Enabled;
    if run != [] {
      Extend(Next(s, run[0].0, run[0].1), run[1..], i, step);
      assert (run + [(i, step)])[1..] == run[1..] + [(i, step)];
    }
  }

  lemma ReachStep(s: State, i: nat, step: Step)
    requires Reachable(s) && Enabled(s, i, step)
    ensures Reachable(Next(s, i, step))
  {
    hide Next, Enabled, Initial, Final, Run;
    var s0, run :| Initial(s0) && Run(s0, run) && Final(s0, run) == s;
    Extend(s0, run, i, step);
  }

  lemma ReachInitial(s: State)
    requires Initial(s)
    ensures Reachable(s)
  {
    hide Initial;
    assert Run(s, []) && Final(s, []) == s;
  }

  /** One process, a free sleep lock 0, and an event 1 that is not ready. */
  function Alone(p: Proc, locked: bool, lk0: Option<nat>, lk1: Option<nat>): State {
    State([p], [Chan(0, true, !locked, if locked then Some(0) else None), Chan(1, false, false, None)], [lk0, lk1])
  }

  function Walker(pc: Pc, own: bool, holds: set<nat>): Proc {
    Proc(RUNNING, None, false, pc, if own then Some(Own) else None, holds)
  }

  lemma WalkTo(s: State, step: Step, t: State)
    requires Reachable(s) && Enabled(s, 0, step) && Next(s, 0, step) == t
    ensures Reachable(t)
  {
    hide Reachable, Next, Enabled;
    ReachStep(s, 0, step);
  }

  lemma HolderStarts()
    ensures Reachable(Alone(Walker(Spin(0), false, {}), false, None, None))
  {
    hide Reachable;
    ReachInitial(Alone(Proc(RUNNABLE, None, false, Outside, None, {}), false, None, None));
    WalkTo(Alone(Proc(RUNNABLE, None, false, Outside, None, {}), false, None, None), SchedulerPick,
           Alone(Walker(Outside, true, {}), false, None, None));
    WalkTo(Alone(Walker(Outside, true, {}), false, None, None), YieldReturn,
        Alone(Walker(Outside, false, {}), false, None, None));
    WalkTo(Alone(Walker(Outside, false, {}), false, None, None), CallWait(0),
        Alone(Walker(Spin(0), false, {}), false, None, None));
  }

  lemma HolderTakes()
    ensures Reachable(Alone(Walker(Outside, false, {0}), true, None, None))
  {
    hide Reachable;
    HolderStarts();
    WalkTo(Alone(Walker(Spin(0), false, {}), false, None, None), AcquireLk,
        Alone(Walker(Test(0), false, {}), false, Some(0), None));
    assert Walker(Test(0), false, {}).holds + {0} == {0};
    WalkTo(Alone(Walker(Test(0), false, {}), false, Some(0), None), TestReady,
        Alone(Walker(Outside, false, {0}), true, None, None));
  }

  /** What sleep locks are for: it sleeps, and the lock stays held. */
  lemma HolderCanSleep()
    ensures Reachable(Alone(Proc(SLEEPING, Some(1), false, Asleep(1), Some(Scheduler), {0}), true, None, None))
  {
    hide Reachable;
    HolderTakes();
    WalkTo(Alone(Walker(Outside, false, {0}), true, None, None), CallWait(1),
        Alone(Walker(Spin(1), false, {0}), true, None, None));
    WalkTo(Alone(Walker(Spin(1), false, {0}), true, None, None), AcquireLk,
        Alone(Walker(Test(1), false, {0}), true, None, Some(0)));
    WalkTo(Alone(Walker(Test(1), false, {0}), true, None, Some(0)), TestReady,
        Alone(Walker(SleepSpin(1), false, {0}), true, None, Some(0)));
    WalkTo(Alone(Walker(SleepSpin(1), false, {0}), true, None, Some(0)), LockSelf,
        Alone(Walker(SleepLocked(1), true, {0}), true, None, Some(0)));
    WalkTo(Alone(Walker(SleepLocked(1), true, {0}), true, None, Some(0)), ReleaseLk,
        Alone(Walker(Going(1), true, {0}), true, None, None));
    WalkTo(Alone(Walker(Going(1), true, {0}), true, None, None), SwitchOut,
           Alone(Proc(SLEEPING, Some(1), false, Asleep(1), Some(Scheduler), {0}), true, None, None));
  }
}
