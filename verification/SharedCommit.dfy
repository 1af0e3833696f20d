/**
 commit of kernel/log.c in the shared buffer cache: one process copies blocks and writes them out, while
 any number of others read through the cache, in every interleaving. The disk goes through the list of
 writes that the crash theorems of module Wal are about, and readers see no trace of it.
 */
module SharedCommit {
  import opened Common
  import opened Wal
  import S = SharedCache

  /** What commit does, block by block: write_log and install_trans copy one block to another, write_head
      changes the front of the header block. */
  datatype Act = Copy(from: S.Id, to: S.Id) | Head(to: S.Id, lh: seq<nat>)

  /** commit's acts, in order. */
  function Plan(l: Layout, lh: seq<nat>): (plan: seq<Act>)
    ensures |plan| == if lh == [] then 0 else 2 * |lh| + 2
  {
    if lh == [] then [] else
      seq(|lh|, i requires 0 <= i < |lh| => Copy(l.Home(lh[i]), l.Log(i)))
      + [Head(l.Header(), lh)]
      + seq(|lh|, i requires 0 <= i < |lh| => Copy(l.Log(i), l.Home(lh[i])))
      + [Head(l.Header(), [])]
  }

  /** `done` acts are over; `stored` says that the next one is in its buffer and not yet written out. */
  datatype State = State(c: S.State, done: nat, stored: bool)

  datatype Step =
    | Cache(i: nat, step: S.Step) // a step of any process that stores and writes nothing
    | Store(f: nat, t: nat)       // memmove to the committer's buffer t
    | Flush(t: nat)               // bwrite of it

  predicate Harmless(me: nat, i: nat, step: S.Step) {
    !step.Store? && !step.Write? && !step.Pin? && (step.Unpin? ==> i == me)
  }

  /** The committer holds block id in the loaded buffer b. */
  predicate Loaded(c: S.State, me: nat, b: nat, id: S.Id) {
    S.Has(c, me, b) && c.procs[me].has[b] == id && c.bufs[b].valid
  }

  predicate HasSource(c: S.State, me: nat, act: Act, f: nat, t: nat)
    requires t < |c.bufs|
  {
    match act
    case Copy(from, _) => Loaded(c, me, f, from)
    case Head(_, lh) => |lh| < |c.bufs[t].data|
  }

  ghost predicate Enabled(plan: seq<Act>, me: nat, s: State, step: Step) {
    match step
    case Cache(i, st) => S.Enabled(s.c, i, st) && Harmless(me, i, st) && S.Tidy(s.c, st)
    case Store(f, t) =>
      && !s.stored && s.done < |plan| && Loaded(s.c, me, t, plan[s.done].to) && |s.c.pins| == |s.c.bufs|
      && HasSource(s.c, me, plan[s.done], f, t)
    case Flush(t) => s.stored && s.done < |plan| && Loaded(s.c, me, t, plan[s.done].to) && |s.c.pins| == |s.c.bufs|
  }

  /** The bytes that the committer stores. */
  function Copied(plan: seq<Act>, me: nat, s: State, f: nat, t: nat): S.Data
    requires Enabled(plan, me, s, Store(f, t))
  {
    match plan[s.done]
    case Copy(_, _) => s.c.bufs[f].data
    case Head(_, lh) => HeaderWords(s.c.bufs[t].data, lh)
  }

  function Next(plan: seq<Act>, me: nat, s: State, step: Step): State
    requires Enabled(plan, me, s, step)
  {
    match step
    case Cache(i, st) => s.(c := S.Next(s.c, i, st))
    case Store(f, t) => s.(c := S.Next(s.c, me, S.Store(t, Copied(plan, me, s, f, t))), stored := true)
    case Flush(t) => State(S.Next(s.c, me, S.Write(t)), s.done + 1, false)
  }

  // Done by one process alone.

  /** What act stores, where the blocks have the contents v. */
  ghost function Value(act: Act, v: Disk): S.Data {
    match act
    case Copy(from, _) => if from in v then v[from] else []
    case Head(to, lh) => if to in v && |lh| < |v[to]| then HeaderWords(v[to], lh) else []
  }

  /** The writes of the first k acts, started with contents v. */
  ghost function Writes(plan: seq<Act>, v: Disk, k: nat): (ws: seq<Write>)
    requires k <= |plan|
    ensures |ws| == k
  {
    if k == 0 then [] else
      var ws := Writes(plan, v, k - 1);
      ws + [(plan[k - 1].to, Value(plan[k - 1], Apply(v, ws)))]
  }

  // Done beside others.

  ghost predicate Inv(plan: seq<Act>, d0: Disk, v0: Disk, s: State) {
    && S.Inv(s.c) && s.c.tidy && s.done <= |plan| && (s.stored ==> s.done < |plan|)
    && s.c.view == Apply(v0, Writes(plan, v0, if s.stored then s.done + 1 else s.done))
    && s.c.disk == Apply(d0, Writes(plan, v0, s.done))
  }

  lemma ApplyOne(d: Disk, ws: seq<Write>, w: Write)
    ensures Apply(d, ws + [w]) == Apply(d, ws)[w.0 := w.1]
  {
    assert (ws + [w])[..|ws|] == ws;
  }

  /** Steps that store and write nothing change neither the disk nor the latest contents. */
  lemma HarmlessStep(c: S.State, me: nat, i: nat, step: S.Step)
    requires S.Enabled(c, i, step) && Harmless(me, i, step) && S.Tidy(c, step) && c.tidy
    ensures S.Next(c, i, step).view == c.view && S.Next(c, i, step).disk == c.disk && S.Next(c, i, step).tidy
  {
  }

  /** A loaded buffer has the latest contents of its block. */
  lemma LoadedIsLatest(c: S.State, me: nat, b: nat, id: S.Id)
    requires S.Inv(c) && c.tidy && Loaded(c, me, b, id)
    ensures id in c.view && c.bufs[b].data == c.view[id]
  {
    S.Fetch(c, me, b);
  }

  lemma StepKeepsInv(plan: seq<Act>, me: nat, d0: Disk, v0: Disk, s: State, step: Step)
    requires Inv(plan, d0, v0, s) && Enabled(plan, me, s, step)
    ensures Inv(plan, d0, v0, Next(plan, me, s, step))
  {
    hide S.Inv, S.Next, S.Enabled, Apply;
    match step
    case Cache(i, st) =>
      S.StepKeepsInv(s.c, i, st);
      HarmlessStep(s.c, me, i, st);
    case Store(f, t) => StoreKeepsInv(plan, me, d0, v0, s, f, t);
    case Flush(t) => FlushKeepsInv(plan, me, d0, v0, s, t);
  }

  lemma StoreKeepsInv(plan: seq<Act>, me: nat, d0: Disk, v0: Disk, s: State, f: nat, t: nat)
    requires Inv(plan, d0, v0, s) && Enabled(plan, me, s, Store(f, t))
    ensures Inv(plan, d0, v0, Next(plan, me, s, Store(f, t)))
  {
    hide S.Inv, Apply;
    var data := Copied(plan, me, s, f, t);
    LoadedIsLatest(s.c, me, t, plan[s.done].to);
    if plan[s.done].Copy? {
      LoadedIsLatest(s.c, me, f, plan[s.done].from);
    }
    assert data == Value(plan[s.done], s.c.view);
    S.StepKeepsInv(s.c, me, S.Store(t, data));
    ApplyOne(v0, Writes(plan, v0, s.done), (plan[s.done].to, data));
  }

  lemma FlushKeepsInv(plan: seq<Act>, me: nat, d0: Disk, v0: Disk, s: State, t: nat)
    requires Inv(plan, d0, v0, s) && Enabled(plan, me, s, Flush(t))
    ensures Inv(plan, d0, v0, Next(plan, me, s, Flush(t)))
  {
    hide S.Inv, Apply;
    LoadedIsLatest(s.c, me, t, plan[s.done].to);
    S.StepKeepsInv(s.c, me, S.Write(t));
    var ws := Writes(plan, v0, s.done);
    var w := (plan[s.done].to, Value(plan[s.done], Apply(v0, ws)));
    ApplyOne(v0, ws, w);
    ApplyOne(d0, ws, w);
  }

  // Whole runs.

  ghost predicate Run(plan: seq<Act>, me: nat, s: State, run: seq<Step>)
    decreases |run|
  {
    run == [] || (Enabled(plan, me, s, run[0]) && Run(plan, me, Next(plan, me, s, run[0]), run[1..]))
  }

  ghost function Final(plan: seq<Act>, me: nat, s: State, run: seq<Step>): State
    requires Run(plan, me, s, run)
    decreases |run|
  {
    if run == [] then s else Final(plan, me, Next(plan, me, s, run[0]), run[1..])
  }

  lemma {:induction false} RunKeepsInv(plan: seq<Act>, me: nat, d0: Disk, v0: Disk, s: State, run: seq<Step>)
    requires Inv(plan, d0, v0, s) && Run(plan, me, s, run)
    ensures Inv(plan, d0, v0, Final(plan, me, s, run))
    decreases |run|
  {
    hide Inv, Enabled, Next;
    if run != [] {
      StepKeepsInv(plan, me, d0, v0, s, run[0]);
      RunKeepsInv(plan, me, d0, v0, Next(plan, me, s, run[0]), run[1..]);
    }
  }

  // The plan is the list of writes that module Wal is about.

  /** A commit may start: the log is empty, also in the cache, and the transaction fits it. */
  ghost predicate CanStart(l: Layout, d: Disk, v: Disk, lh: seq<nat>) {
    CanCommit(l, d, v, lh) && v[l.Header()] == d[l.Header()]
  }

  /** Act k stores what the k-th write of the list writes. */
  lemma ValueIs(l: Layout, d: Disk, v: Disk, lh: seq<nat>, k: nat)
    requires CanStart(l, d, v, lh) && k < |CommitOf(l, d, v, lh)|
    ensures |Plan(l, lh)| == |CommitOf(l, d, v, lh)|
    ensures var ws, act := CommitOf(l, d, v, lh), Plan(l, lh)[k];
      ws[k] == (act.to, Value(act, Apply(v, ws[..k])))
  {
    var ws, n := CommitOf(l, d, v, lh), |lh|;
    hide Apply;
    if k < n {
      ApplyElsewhere(v, ws[..k], l.Home(lh[k]));
    } else if k == n {
      ApplyElsewhere(v, ws[..k], l.Header());
    } else if k <= 2 * n {
      ApplyAt(v, ws[..k], k - n - 1);
    } else {
      ApplyAt(v, ws[..k], n);
    }
  }

  lemma {:induction false} WritesAre(l: Layout, d: Disk, v: Disk, lh: seq<nat>, k: nat)
    requires CanStart(l, d, v, lh) && k <= |CommitOf(l, d, v, lh)|
    ensures |Plan(l, lh)| == |CommitOf(l, d, v, lh)| && Writes(Plan(l, lh), v, k) == CommitOf(l, d, v, lh)[..k]
  {
    hide CanCommit, Plan, CommitOf;
    PlanLength(l, d, v, lh);
    if k > 0 {
      WritesAre(l, d, v, lh, k - 1);
      ValueIs(l, d, v, lh, k - 1);
      var ws := CommitOf(l, d, v, lh);
      assert ws[..k] == ws[..k - 1] + [ws[k - 1]];
    }
  }

  lemma PlanLength(l: Layout, d: Disk, v: Disk, lh: seq<nat>)
    requires CanStart(l, d, v, lh)
    ensures |Plan(l, lh)| == |CommitOf(l, d, v, lh)|
  {
  }

  /** The cache at the start of a commit by process me. */
  ghost predicate Starts(l: Layout, lh: seq<nat>, s: State) {
    S.Reachable(s.c) && s.c.tidy && s.done == 0 && !s.stored && CanStart(l, s.c.disk, s.c.view, lh)
  }

  lemma DuringCommit(l: Layout, lh: seq<nat>, me: nat, s: State, run: seq<Step>)
    requires Starts(l, lh, s) && Run(Plan(l, lh), me, s, run)
    ensures var t := Final(Plan(l, lh), me, s, run);
      && Inv(Plan(l, lh), s.c.disk, s.c.view, t) && t.done <= |CommitOf(l, s.c.disk, s.c.view, lh)|
      && t.c.disk == Apply(s.c.disk, CommitOf(l, s.c.disk, s.c.view, lh)[..t.done])
  {
    hide S.Inv, CanStart, CommitOf, Run, S.Reachable;
    S.ReachableInv(s.c);
    var plan := Plan(l, lh);
    assert Inv(plan, s.c.disk, s.c.view, s);
    RunKeepsInv(plan, me, s.c.disk, s.c.view, s, run);
    PlanLength(l, s.c.disk, s.c.view, lh);
    WritesAre(l, s.c.disk, s.c.view, lh, Final(plan, me, s, run).done);
  }

  /** Whatever the other processes do with the cache meanwhile, and wherever commit is when the machine stops, recovery
      gives the old home blocks or the new ones of the whole transaction; the new ones exactly when the header had
      been written. */
  lemma CrashBesideReaders(l: Layout, lh: seq<nat>, me: nat, s: State, run: seq<Step>)
    requires Starts(l, lh, s) && Run(Plan(l, lh), me, s, run)
    ensures var t := Final(Plan(l, lh), me, s, run);
      && LogOk(l, t.c.disk) && s.c.view.Keys == s.c.disk.Keys
      && SameHome(l, if t.done > |lh| then After(l, s.c.disk, s.c.view, lh) else s.c.disk, Recovered(l, t.c.disk))
  {
    hide Inv, Run, S.Reachable, LogOk, CommitOf;
    DuringCommit(l, lh, me, s, run);
    CommitIsAtomic(l, s.c.disk, s.c.view, lh, Final(Plan(l, lh), me, s, run).done);
  }

  lemma {:induction false} HomesStay(l: Layout, d: Disk, v: Disk, lh: seq<nat>, k: nat, id: S.Id)
    requires CanStart(l, d, v, lh) && k <= |CommitOf(l, d, v, lh)| && id in v && !l.InLog(id)
    ensures var v' := Apply(v, CommitOf(l, d, v, lh)[..k]); id in v' && v'[id] == v[id]
  {
    var ws := CommitOf(l, d, v, lh);
    if k > 0 {
      HomesStay(l, d, v, lh, k - 1, id);
      hide Apply;
      assert ws[..k] == ws[..k - 1] + [ws[k - 1]];
      ApplyOne(v, ws[..k - 1], ws[k - 1]);
    }
  }

  /** And a process that reads a block of the file system at any time of a commit sees what was last stored to it
      before the commit. */
  lemma ReadersSeeNothing(l: Layout, lh: seq<nat>, me: nat, s: State, run: seq<Step>, i: nat, b: nat, id: S.Id)
    requires Starts(l, lh, s) && Run(Plan(l, lh), me, s, run) && id in s.c.view && !l.InLog(id)
    requires Loaded(Final(Plan(l, lh), me, s, run).c, i, b, id)
    ensures Final(Plan(l, lh), me, s, run).c.bufs[b].data == s.c.view[id]
  {
    hide S.Inv, CanStart, CommitOf, Run, S.Reachable, Apply;
    DuringCommit(l, lh, me, s, run);
    var t := Final(Plan(l, lh), me, s, run);
    var k := if t.stored then t.done + 1 else t.done;
    PlanLength(l, s.c.disk, s.c.view, lh);
    WritesAre(l, s.c.disk, s.c.view, lh, k);
    HomesStay(l, s.c.disk, s.c.view, lh, k, id);
    LoadedIsLatest(t.c, i, b, id);
  }
}
