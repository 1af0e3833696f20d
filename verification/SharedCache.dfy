/**
 The buffer cache of kernel/bio.c under many processes, as a state machine over every interleaving:
 the searches and the counts are atomic under bcache.lock, the sleep lock of a buffer is taken and
 released on its own, and between the two a process may wait while others go on.

 The log keeps a rule: a process that lets go of a dirty buffer leaves it pinned, and the last pin is taken
 from a buffer that is clean or held. What the counts and the locks guarantee does not depend on it; that no
 store is lost does.
 */
module SharedCache {
  import opened Common
  import B = Bio

  type Id = B.Id
  type Data = B.Words

  datatype Buf = Buf(id: Option<Id>, refcnt: nat, holder: Option<nat>, valid: bool, data: Data)

  /** A process may be inside acquiresleep for a buffer, hold some buffers, and be inside brelse with a
      lock released and the count not yet lowered. */
  datatype Proc = Proc(wants: Option<(nat, Id)>, has: map<nat, Id>, drops: Option<nat>)

  /** pins[b] counts the bpin calls not taken back; view is what was last stored to each block; tidy says that
      the rule has been kept so far. */
  datatype State = State(bufs: seq<Buf>, pins: seq<nat>, procs: seq<Proc>, disk: map<Id, Data>, view: map<Id, Data>,
      tidy: bool)

  datatype Step =
    | Hit(b: nat, id: Id) | Miss(b: nat, id: Id) | Lock
    | Load(b: nat) | Store(b: nat, data: Data) | Write(b: nat)
    | Unlock(b: nat) | Drop | Pin(b: nat) | Unpin(b: nat)

  predicate CachedAt(s: State, b: nat, id: Id) {
    b < |s.bufs| && s.bufs[b].id == Some(id)
  }

  /** The disk has what the buffer has. */
  predicate Clean(s: State, b: nat)
    requires b < |s.bufs|
  {
    var buf := s.bufs[b];
    buf.id.Some? && buf.valid ==> buf.id.value in s.disk && s.disk[buf.id.value] == buf.data
  }

  predicate Has(s: State, i: nat, b: nat) {
    i < |s.procs| && b in s.procs[i].has && b < |s.bufs|
  }

  ghost predicate Enabled(s: State, i: nat, step: Step) {
    i < |s.procs| && |s.pins| == |s.bufs| &&
    var p := s.procs[i];
    match step
    case Hit(b, id) => p.wants == None && p.drops == None && CachedAt(s, b, id)
    case Miss(b, id) =>
      && p.wants == None && p.drops == None && id in s.disk && b < |s.bufs| && s.bufs[b].refcnt == 0
      && forall k: nat :: !CachedAt(s, k, id)
    case Lock => p.wants.Some? && p.wants.value.0 < |s.bufs| && s.bufs[p.wants.value.0].holder == None
    case Load(b) => Has(s, i, b) && !s.bufs[b].valid && p.has[b] in s.disk
    case Store(b, data) => Has(s, i, b) && s.bufs[b].valid
    case Write(b) => Has(s, i, b) && s.bufs[b].valid
    case Unlock(b) => Has(s, i, b) && p.drops == None
    case Drop => p.drops.Some? && p.drops.value < |s.bufs| && s.bufs[p.drops.value].refcnt > 0
    case Pin(b) => b < |s.bufs| && s.bufs[b].refcnt > 0
    case Unpin(b) => b < |s.bufs| && s.pins[b] > 0 && s.bufs[b].refcnt > 0
  }

  /** The step keeps the log's rule. */
  predicate Tidy(s: State, step: Step)
    requires |s.pins| == |s.bufs|
  {
    match step
    case Unlock(b) => b < |s.bufs| && (Clean(s, b) || s.pins[b] > 0)
    case Unpin(b) => b < |s.bufs| && (Clean(s, b) || s.pins[b] > 1 || s.bufs[b].holder.Some?)
    case _ => true
  }

  function SetBuf(s: State, b: nat, buf: Buf): State
    requires b < |s.bufs|
  {
    s.(bufs := s.bufs[b := buf])
  }

  function SetProc(s: State, i: nat, p: Proc): State
    requires i < |s.procs|
  {
    s.(procs := s.procs[i := p])
  }

  function Next(s: State, i: nat, step: Step): State
    requires Enabled(s, i, step)
  {
    var p := s.procs[i];
    match step
    case Hit(b, id) => SetProc(SetBuf(s, b, s.bufs[b].(refcnt := s.bufs[b].refcnt + 1)), i, p.(wants := Some((b, id))))
    case Miss(b, id) =>
      SetProc(SetBuf(s, b, s.bufs[b].(id := Some(id), valid := false, refcnt := 1)), i, p.(wants := Some((b, id))))
    case Lock =>
      var (b, id) := p.wants.value;
      SetProc(SetBuf(s, b, s.bufs[b].(holder := Some(i))), i, p.(wants := None, has := p.has[b := id]))
    case Load(b) => SetBuf(s, b, s.bufs[b].(valid := true, data := s.disk[p.has[b]]))
    case Store(b, data) => SetBuf(s, b, s.bufs[b].(data := data)).(view := s.view[p.has[b] := data])
    case Write(b) => s.(disk := s.disk[p.has[b] := s.bufs[b].data])
    case Unlock(b) => SetProc(SetBuf(s, b, s.bufs[b].(holder := None)), i, p.(has := p.has - {b}, drops := Some(b)))
        .(tidy := s.tidy && Tidy(s, step))
    case Drop =>
      SetProc(SetBuf(s, p.drops.value, s.bufs[p.drops.value].(refcnt := s.bufs[p.drops.value].refcnt - 1)), i,
      p.(drops := None))
    case Pin(b) => SetBuf(s, b, s.bufs[b].(refcnt := s.bufs[b].refcnt + 1)).(pins := s.pins[b := s.pins[b] + 1])
    case Unpin(b) => SetBuf(s, b, s.bufs[b].(refcnt := s.bufs[b].refcnt - 1)).(pins := s.pins[b := s.pins[b] - 1])
        .(tidy := s.tidy && Tidy(s, step))
  }

  /** After binit, with the processes not started. */
  ghost predicate Initial(s: State) {
    && |s.pins| == |s.bufs| && s.view == s.disk && s.tidy
    && (forall b: nat | b < |s.bufs| :: s.bufs[b].id == None && s.bufs[b].refcnt == 0 && s.bufs[b].holder == None)
    && (forall b: nat | b < |s.bufs| :: s.pins[b] == 0)
    && (forall i: nat | i < |s.procs| :: s.procs[i] == Proc(None, map[], None))
  }

  // What refcnt counts.

  function One(b: bool): nat {
    if b then 1 else 0
  }

  /** The references to buffer b that process p has. */
  function Claims(p: Proc, b: nat): nat {
    One(p.wants.Some? && p.wants.value.0 == b) + One(b in p.has) + One(p.drops == Some(b))
  }

  function Total(procs: seq<Proc>, b: nat): nat {
    if procs == [] then 0 else Total(procs[..|procs| - 1], b) + Claims(procs[|procs| - 1], b)
  }

  lemma {:induction false} TotalUpdate(procs: seq<Proc>, i: nat, p: Proc, b: nat)
    requires i < |procs|
    ensures Total(procs[i := p], b) + Claims(procs[i], b) == Total(procs, b) + Claims(p, b)
  {
    hide Claims;
    var n := |procs| - 1;
    if i == n {
      assert procs[i := p][..n] == procs[..n];
    } else {
      TotalUpdate(procs[..n], i, p, b);
      assert procs[i := p][..n] == procs[..n][i := p];
    }
  }

  lemma {:induction false} TotalAtLeast(procs: seq<Proc>, i: nat, b: nat)
    requires i < |procs|
    ensures Claims(procs[i], b) <= Total(procs, b)
  {
    hide Claims;
    if i < |procs| - 1 {
      TotalAtLeast(procs[..|procs| - 1], i, b);
    }
  }

  lemma {:induction false} TotalNone(procs: seq<Proc>, b: nat)
    requires forall i: nat | i < |procs| :: procs[i] == Proc(None, map[], None)
    ensures Total(procs, b) == 0
  {
    if procs != [] {
      TotalNone(procs[..|procs| - 1], b);
    }
  }

  // The invariant, buffer by buffer and process by process.

  predicate BufOk(s: State, b: nat)
    requires b < |s.bufs| == |s.pins|
  {
    var buf := s.bufs[b];
    && buf.refcnt == s.pins[b] + Total(s.procs, b)
    && (buf.holder.Some? ==> Has(s, buf.holder.value, b))
    && (buf.id.Some? ==> buf.id.value in s.disk && buf.id.value in s.view)
    && (s.tidy && buf.id.Some? && buf.valid ==> s.view[buf.id.value] == buf.data)
    && (s.tidy ==> Clean(s, b) || s.pins[b] > 0 || buf.holder.Some?)
  }

  predicate ProcOk(s: State, i: nat)
    requires i < |s.procs|
  {
    var p := s.procs[i];
    && (p.wants.Some? ==> CachedAt(s, p.wants.value.0, p.wants.value.1))
    && (p.drops.Some? ==> p.drops.value < |s.bufs|)
    && (forall b | b in p.has :: CachedAt(s, b, p.has[b]) && s.bufs[b].holder == Some(i))
  }

  predicate Apart(s: State, b: nat, c: nat)
    requires b < |s.bufs| && c < |s.bufs|
  {
    b != c && s.bufs[b].id.Some? ==> s.bufs[b].id != s.bufs[c].id
  }

  /** A block that no valid buffer caches is on disk as it was last stored. */
  ghost predicate DiskOk(s: State, id: Id) {
    && (id in s.disk ==> id in s.view)
    && (s.tidy && id in s.disk ==>
          (exists b: nat :: CachedAt(s, b, id) && s.bufs[b].valid) || s.disk[id] == s.view[id])
  }

  ghost predicate Inv(s: State) {
    && |s.pins| == |s.bufs|
    && (forall b: nat | b < |s.bufs| :: BufOk(s, b))
    && (forall i: nat | i < |s.procs| :: ProcOk(s, i))
    && (forall b: nat, c: nat | b < |s.bufs| && c < |s.bufs| :: Apart(s, b, c))
    && (forall id :: DiskOk(s, id))
  }

  lemma InitialInv(s: State)
    requires Initial(s)
    ensures Inv(s)
  {
    forall b: nat | b < |s.bufs| ensures BufOk(s, b) {
      TotalNone(s.procs, b);
    }
  }

  lemma Fetch(s: State, i: nat, b: nat)
    requires Inv(s) && i < |s.procs| && b < |s.bufs|
    ensures |s.pins| == |s.bufs| && BufOk(s, b) && ProcOk(s, i)
  {
  }

  lemma FetchApart(s: State, b: nat, c: nat)
    requires Inv(s) && b < |s.bufs| && c < |s.bufs|
    ensures Apart(s, b, c)
  {
  }

  lemma FetchDisk(s: State, id: Id)
    requires Inv(s)
    ensures DiskOk(s, id)
  {
  }

  /** What a process reads for a buffer that is not valid yet is the latest. */
  lemma LoadIsLatest(s: State, i: nat, b: nat)
    requires Inv(s) && s.tidy && Has(s, i, b) && !s.bufs[b].valid && s.procs[i].has[b] in s.disk
    ensures s.procs[i].has[b] in s.view && s.disk[s.procs[i].has[b]] == s.view[s.procs[i].has[b]]
  {
    hide Inv, BufOk;
    Fetch(s, i, b);
    FetchDisk(s, s.procs[i].has[b]);
    forall c: nat | CachedAt(s, c, s.procs[i].has[b]) ensures c == b {
      FetchApart(s, b, c);
    }
  }

  /** The buffer that a step is about. */
  function Subject(s: State, i: nat, step: Step): nat
    requires Enabled(s, i, step)
  {
    match step
    case Hit(b, _) => b
    case Miss(b, _) => b
    case Lock => s.procs[i].wants.value.0
    case Load(b) => b
    case Store(b, _) => b
    case Write(b) => b
    case Unlock(b) => b
    case Drop => s.procs[i].drops.value
    case Pin(b) => b
    case Unpin(b) => b
  }

  /** No process has a reference to a buffer whose count is 0. */
  lemma Unreferenced(s: State, j: nat, b: nat)
    requires Inv(s) && j < |s.procs| && b < |s.bufs| && s.bufs[b].refcnt == 0
    ensures Claims(s.procs[j], b) == 0 && s.bufs[b].holder == None && (s.tidy ==> Clean(s, b))
  {
    hide Inv, Total;
    Fetch(s, j, b);
    TotalAtLeast(s.procs, j, b);
    if s.bufs[b].holder.Some? {
      TotalAtLeast(s.procs, s.bufs[b].holder.value, b);
    }
  }

  /** The steps that give a buffer to a process, or take it away. */
  predicate HandsOver(step: Step) {
    step.Hit? || step.Miss? || step.Lock? || step.Unlock? || step.Drop?
  }

  predicate Counted(s: State, b: nat) {
    b < |s.bufs| == |s.pins| && s.bufs[b].refcnt == s.pins[b] + Total(s.procs, b)
  }

  lemma FetchCounted(s: State, b: nat)
    requires Inv(s) && b < |s.bufs|
    ensures Counted(s, b)
  {
    hide Total;
    assert BufOk(s, b);
  }

  lemma Runs(s: State, i: nat, step: Step)
    requires Enabled(s, i, step)
    ensures i < |s.procs|
  {
  }

  lemma CountData(s: State, i: nat, step: Step, b: nat)
    requires Counted(s, b) && Enabled(s, i, step) && !HandsOver(step)
    ensures var s' := Next(s, i, step); |s'.bufs| == |s.bufs| && Counted(s', b)
  {
    hide Total, Tidy;
  }

  lemma CountHandsOver(s: State, i: nat, step: Step, b: nat)
    requires Counted(s, b) && Enabled(s, i, step) && HandsOver(step) && ProcOk(s, i)
    ensures var s' := Next(s, i, step); |s'.bufs| == |s.bufs| && Counted(s', b)
  {
    hide Total, Tidy;
    var s' := Next(s, i, step);
    TotalUpdate(s.procs, i, s'.procs[i], b);
    assert s'.procs == s.procs[i := s'.procs[i]];
  }

  lemma CountStep(s: State, i: nat, step: Step, b: nat)
    requires Inv(s) && Enabled(s, i, step) && b < |s.bufs|
    ensures var s' := Next(s, i, step);
      |s'.bufs| == |s'.pins| == |s.bufs| && s'.bufs[b].refcnt == s'.pins[b] + Total(s'.procs, b)
  {
    hide Inv, Total, Next, Enabled, BufOk, ProcOk;
    FetchCounted(s, b);
    if HandsOver(step) {
      Runs(s, i, step);
      Fetch(s, i, b);
      CountHandsOver(s, i, step, b);
    } else {
      CountData(s, i, step, b);
    }
  }

  /** A step leaves every buffer but its subject alone. */
  lemma Elsewhere(s: State, i: nat, step: Step, b: nat)
    requires Enabled(s, i, step) && b < |s.bufs|
    ensures var s', c := Next(s, i, step), Subject(s, i, step);
      && |s'.bufs| == |s'.pins| == |s.bufs| && c < |s.bufs| && |s'.procs| == |s.procs| && (s'.tidy ==> s.tidy)
      && (b != c ==> s'.bufs[b] == s.bufs[b] && s'.pins[b] == s.pins[b])
      && (b != c ==> (b in s'.procs[i].has <==> b in s.procs[i].has))
      && (forall j: nat | j < |s.procs| && j != i :: s'.procs[j] == s.procs[j])
  {
  }

  /** And every block but the one that the process holds. */
  lemma OtherBlocks(s: State, i: nat, step: Step, id: Id)
    requires Enabled(s, i, step)
    ensures var s', p := Next(s, i, step), s.procs[i];
      && s.disk.Keys <= s'.disk.Keys && s.view.Keys <= s'.view.Keys
      && (step.Store? || step.Write? ==> step.b in p.has)
      && (s'.view != s.view ==> step.Store?) && (s'.disk != s.disk ==> step.Write?)
      && (id in s.view && !(step.Store? && p.has[step.b] == id) ==> s'.view[id] == s.view[id])
      && (id in s.disk && !(step.Write? && p.has[step.b] == id) ==> s'.disk[id] == s.disk[id])
  {
  }

  lemma BufElsewhere(s: State, i: nat, step: Step, b: nat)
    requires Inv(s) && Enabled(s, i, step) && b < |s.bufs| && b != Subject(s, i, step)
    ensures var s' := Next(s, i, step); |s'.bufs| == |s'.pins| == |s.bufs| && BufOk(s', b)
  {
    hide Inv, Total, Next;
    CountStep(s, i, step, b);
    Elsewhere(s, i, step, b);
    Fetch(s, i, b);
    if s.bufs[b].id.Some? {
      OtherBlocks(s, i, step, s.bufs[b].id.value);
    }
    if step.Store? || step.Write? {
      FetchApart(s, b, step.b);
    }
  }

  lemma BufHanded(s: State, i: nat, step: Step)
    requires Inv(s) && Enabled(s, i, step) && HandsOver(step)
    ensures var s', b := Next(s, i, step), Subject(s, i, step); b < |s'.bufs| == |s'.pins| && BufOk(s', b)
  {
    hide Inv, Total;
    var b := Subject(s, i, step);
    CountStep(s, i, step, b);
    Fetch(s, i, b);
    if step.Miss? {
      Unreferenced(s, i, b);
      FetchDisk(s, step.id);
    }
  }

  lemma BufData(s: State, i: nat, step: Step)
    requires Inv(s) && Enabled(s, i, step) && !HandsOver(step)
    ensures var s', b := Next(s, i, step), Subject(s, i, step); b < |s'.bufs| == |s'.pins| && BufOk(s', b)
  {
    hide Inv, Total;
    var b := Subject(s, i, step);
    CountStep(s, i, step, b);
    Fetch(s, i, b);
    if step.Load? && s.tidy {
      LoadIsLatest(s, i, b);
    }
  }

  lemma BufHere(s: State, i: nat, step: Step)
    requires Inv(s) && Enabled(s, i, step)
    ensures var s', b := Next(s, i, step), Subject(s, i, step); b < |s'.bufs| == |s'.pins| && BufOk(s', b)
  {
    hide Inv, BufOk, Next, Enabled, Subject;
    if HandsOver(step) {
      BufHanded(s, i, step);
    } else {
      BufData(s, i, step);
    }
  }

  lemma ProcSelf(s: State, i: nat, step: Step)
    requires Inv(s) && Enabled(s, i, step) && HandsOver(step)
    ensures var s' := Next(s, i, step); |s'.procs| == |s.procs| && ProcOk(s', i)
  {
    hide Inv, BufOk;
    Fetch(s, i, Subject(s, i, step));
    if step.Miss? {
      Unreferenced(s, i, step.b);
    }
  }

  /** Only a miss changes the block of a buffer, and only acquiresleep and brelse its holder. */
  lemma Identity(s: State, i: nat, step: Step, c: nat)
    requires Enabled(s, i, step) && c < |s.bufs|
    ensures var s' := Next(s, i, step);
      && |s'.bufs| == |s.bufs|
      && (s'.bufs[c].id == s.bufs[c].id || (step.Miss? && c == step.b))
      && (|| s'.bufs[c].holder == s.bufs[c].holder || (step.Lock? && s.bufs[c].holder == None)
          || (step.Unlock? && Has(s, i, c)))
  {
    hide Tidy;
  }

  lemma ProcOther(s: State, i: nat, step: Step, j: nat)
    requires Inv(s) && Enabled(s, i, step) && j < |s.procs| && j != i
    ensures var s' := Next(s, i, step); |s'.procs| == |s.procs| && ProcOk(s', j)
  {
    hide Inv, BufOk, Next, Total;
    var s', p := Next(s, i, step), s.procs[j];
    OtherSame(s, i, step, j);
    Held(s, i);
    Held(s, j);
    forall c: nat | c < |s.bufs| ensures s'.bufs[c].id == s.bufs[c].id || Claims(p, c) == 0 {
      Identity(s, i, step, c);
      if step.Miss? && c == step.b {
        Unreferenced(s, j, c);
      }
    }
    forall b | b in p.has ensures CachedAt(s', b, p.has[b]) && s'.bufs[b].holder == Some(j) {
      Identity(s, i, step, b);
    }
  }

  lemma Held(s: State, i: nat)
    requires Inv(s) && i < |s.procs|
    ensures ProcOk(s, i)
  {
    hide BufOk;
  }

  lemma OtherSame(s: State, i: nat, step: Step, j: nat)
    requires Enabled(s, i, step) && j < |s.procs| && j != i
    ensures var s' := Next(s, i, step); |s'.procs| == |s.procs| && |s'.bufs| == |s.bufs| && s'.procs[j] == s.procs[j]
  {
    hide Tidy;
  }

  /** The other steps do not change a process. */
  lemma ProcData(s: State, i: nat, step: Step)
    requires Inv(s) && Enabled(s, i, step) && !HandsOver(step)
    ensures var s' := Next(s, i, step); |s'.procs| == |s.procs| && ProcOk(s', i)
  {
    hide Inv, BufOk, Next;
    var s', p := Next(s, i, step), s.procs[i];
    DataSame(s, i, step);
    Held(s, i);
    forall c: nat | c < |s.bufs| ensures s'.bufs[c].id == s.bufs[c].id && s'.bufs[c].holder == s.bufs[c].holder {
      Identity(s, i, step, c);
    }
  }

  lemma DataSame(s: State, i: nat, step: Step)
    requires Enabled(s, i, step) && !HandsOver(step)
    ensures var s' := Next(s, i, step); s'.procs == s.procs && |s'.bufs| == |s.bufs|
  {
    hide Tidy;
  }

  lemma ProcStep(s: State, i: nat, step: Step, j: nat)
    requires Inv(s) && Enabled(s, i, step) && j < |s.procs|
    ensures var s' := Next(s, i, step); |s'.procs| == |s.procs| && ProcOk(s', j)
  {
    hide Inv, ProcOk, Next, Enabled;
    if j != i {
      ProcOther(s, i, step, j);
    } else if HandsOver(step) {
      ProcSelf(s, i, step);
    } else {
      ProcData(s, i, step);
    }
  }

  lemma ApartStep(s: State, i: nat, step: Step, b: nat, c: nat)
    requires Inv(s) && Enabled(s, i, step) && b < |s.bufs| && c < |s.bufs|
    ensures var s' := Next(s, i, step); |s'.bufs| == |s.bufs| && Apart(s', b, c)
  {
    hide Inv, BufOk, ProcOk;
    FetchApart(s, b, c);
    if step.Miss? {
      assert !CachedAt(s, b, step.id) && !CachedAt(s, c, step.id);
    }
  }

  lemma DiskStep(s: State, i: nat, step: Step, id: Id)
    requires Inv(s) && Enabled(s, i, step)
    ensures DiskOk(Next(s, i, step), id)
  {
    hide Inv, Next, Enabled, DiskOk;
    if HandsOver(step) {
      DiskHanded(s, i, step, id);
    } else {
      DiskData(s, i, step, id);
    }
  }

  lemma DiskData(s: State, i: nat, step: Step, id: Id)
    requires Inv(s) && Enabled(s, i, step) && !HandsOver(step)
    ensures DiskOk(Next(s, i, step), id)
  {
    hide Inv, Total;
    var s' := Next(s, i, step);
    FetchDisk(s, id);
    Fetch(s, i, Subject(s, i, step));
    if c: nat :| CachedAt(s, c, id) && s.bufs[c].valid {
      assert CachedAt(s', c, id) && s'.bufs[c].valid;
    }
  }

  lemma DiskHanded(s: State, i: nat, step: Step, id: Id)
    requires Inv(s) && Enabled(s, i, step) && HandsOver(step)
    ensures DiskOk(Next(s, i, step), id)
  {
    hide Inv, Total;
    var s' := Next(s, i, step);
    FetchDisk(s, id);
    Fetch(s, i, Subject(s, i, step));
    if c: nat :| CachedAt(s, c, id) && s.bufs[c].valid {
      if step.Miss? && c == step.b {
        Unreferenced(s, i, c);
      } else {
        assert CachedAt(s', c, id) && s'.bufs[c].valid;
      }
    }
  }

  lemma BufStep(s: State, i: nat, step: Step, b: nat)
    requires Inv(s) && Enabled(s, i, step) && b < |s.bufs|
    ensures var s' := Next(s, i, step); |s'.bufs| == |s'.pins| == |s.bufs| && BufOk(s', b)
  {
    hide Inv, BufOk, Next, Enabled, Subject;
    if b == Subject(s, i, step) {
      BufHere(s, i, step);
    } else {
      BufElsewhere(s, i, step, b);
    }
    Elsewhere(s, i, step, b);
  }

  lemma SameSizes(s: State, i: nat, step: Step)
    requires Enabled(s, i, step)
    ensures var s' := Next(s, i, step); |s'.bufs| == |s'.pins| == |s.bufs| && |s'.procs| == |s.procs|
  {
  }

  /** Every step of every process keeps the invariant. */
  lemma StepKeepsInv(s: State, i: nat, step: Step)
    requires Inv(s) && Enabled(s, i, step)
    ensures Inv(Next(s, i, step))
  {
    hide BufOk, ProcOk, Apart, DiskOk, Next, Enabled;
    var s' := Next(s, i, step);
    SameSizes(s, i, step);
    forall b: nat | b < |s'.bufs| ensures BufOk(s', b) {
      BufStep(s, i, step, b);
    }
    forall j: nat | j < |s'.procs| ensures ProcOk(s', j) {
      ProcStep(s, i, step, j);
    }
    forall b: nat, c: nat | b < |s'.bufs| && c < |s'.bufs| ensures Apart(s', b, c) {
      ApartStep(s, i, step, b, c);
    }
    forall id ensures DiskOk(s', id) {
      DiskStep(s, i, step, id);
    }
  }

  // Whole runs.

  ghost predicate Run(s: State, run: seq<(nat, Step)>)
    decreases |run|
  {
    run == [] || (Enabled(s, run[0].0, run[0].1) && Run(Next(s, run[0].0, run[0].1), run[1..]))
  }

  ghost function Final(s: State, run: seq<(nat, Step)>): State
    requires Run(s, run)
    decreases |run|
  {
    if run == [] then s else Final(Next(s, run[0].0, run[0].1), run[1..])
  }

  lemma {:induction false} RunKeepsInv(s: State, run: seq<(nat, Step)>)
    requires Inv(s) && Run(s, run)
    ensures Inv(Final(s, run))
    decreases |run|
  {
    if run != [] {
      StepKeepsInv(s, run[0].0, run[0].1);
      RunKeepsInv(Next(s, run[0].0, run[0].1), run[1..]);
    }
  }

  ghost predicate Reachable(s: State) {
    exists s0, run :: Initial(s0) && Run(s0, run) && Final(s0, run) == s
  }

  lemma ReachableInv(s: State)
    requires Reachable(s)
    ensures Inv(s)
  {
    var s0, run :| Initial(s0) && Run(s0, run) && Final(s0, run) == s;
    InitialInv(s0);
    RunKeepsInv(s0, run);
  }

  /** A process that waits for a buffer's lock, however long, waits for a buffer that still caches its
      block and cannot be recycled. */
  lemma WaiterKeepsBuffer(s: State, i: nat)
    requires Reachable(s) && i < |s.procs| && s.procs[i].wants.Some?
    ensures var (b, id) := s.procs[i].wants.value; CachedAt(s, b, id) && s.bufs[b].refcnt > 0
  {
    ReachableInv(s);
    var b := s.procs[i].wants.value.0;
    assert ProcOk(s, i);
    Fetch(s, i, b);
    TotalAtLeast(s.procs, i, b);
  }

  /** A process that holds a buffer holds the block it asked for, and once it is read, while the rule is kept, the
      data is what any process last stored to that block. */
  lemma HolderReadsLatest(s: State, i: nat, b: nat)
    requires Reachable(s) && i < |s.procs| && b in s.procs[i].has
    ensures var id := s.procs[i].has[b];
      CachedAt(s, b, id) && id in s.view && (s.tidy && s.bufs[b].valid ==> s.bufs[b].data == s.view[id])
  {
    ReachableInv(s);
    assert ProcOk(s, i);
    Fetch(s, i, b);
  }

  /** No block is in the hands of two processes, or in two buffers. */
  lemma BlockHeldOnce(s: State, i: nat, b: nat, j: nat, c: nat)
    requires Reachable(s) && i < |s.procs| && b in s.procs[i].has && j < |s.procs| && c in s.procs[j].has
    requires s.procs[i].has[b] == s.procs[j].has[c]
    ensures i == j && b == c
  {
    ReachableInv(s);
    assert ProcOk(s, i) && ProcOk(s, j);
    FetchApart(s, b, c);
  }

  /** bread: a holder whose buffer is not read yet can read it, and then has the block's contents on the disk, which
      are the latest while the rule is kept. */
  lemma LoadReads(s: State, i: nat, b: nat)
    requires Reachable(s) && Has(s, i, b) && !s.bufs[b].valid
    ensures Enabled(s, i, Load(b))
    ensures var s', id := Next(s, i, Load(b)), s.procs[i].has[b];
      && |s'.bufs| == |s.bufs| && s'.bufs[b].valid && s'.bufs[b].data == s.disk[id]
      && (s.tidy ==> id in s.view && s'.bufs[b].data == s.view[id])
  {
    hide Reachable, Inv, Total;
    ReachableInv(s);
    Fetch(s, i, b);
    if s.tidy {
      LoadIsLatest(s, i, b);
    }
  }

  /** bwrite: a holder can write its buffer, and then the disk has what the buffer has, in that block and no other. */
  lemma WriteReaches(s: State, i: nat, b: nat)
    requires Reachable(s) && Has(s, i, b) && s.bufs[b].valid
    ensures Enabled(s, i, Write(b))
    ensures var s', id := Next(s, i, Write(b)), s.procs[i].has[b];
      && id in s'.disk && s'.disk[id] == s.bufs[b].data &&
        (forall x | x in s.disk && x != id :: s'.disk[x] == s.disk[x])
      && s'.bufs == s.bufs && s'.view == s.view && (s.tidy ==> id in s.view && s'.disk[id] == s.view[id])
  {
    hide Reachable, Inv, Total;
    ReachableInv(s);
    Fetch(s, i, b);
  }

  /** Nobody is stuck but for the holder of the buffer that it waits for: a process inside acquiresleep can take the
      lock or somebody holds it, one inside brelse can finish, and one that holds a buffer can let go of it. */
  lemma NobodyStuck(s: State, i: nat)
    requires Reachable(s) && i < |s.procs|
    ensures var p := s.procs[i];
      && (p.wants.Some? ==> Enabled(s, i, Lock) || exists j: nat :: Has(s, j, p.wants.value.0))
      && (p.drops.Some? ==> Enabled(s, i, Drop))
      && (forall b | b in p.has && p.drops == None :: Enabled(s, i, Unlock(b)))
  {
    hide Reachable, Inv, Total;
    ReachableInv(s);
    Held(s, i);
    InvSizes(s);
    var p := s.procs[i];
    if p.wants.Some? {
      Fetch(s, i, p.wants.value.0);
    }
    if p.drops.Some? {
      Fetch(s, i, p.drops.value);
      TotalAtLeast(s.procs, i, p.drops.value);
    }
  }

  lemma InvSizes(s: State)
    requires Inv(s)
    ensures |s.pins| == |s.bufs|
  {
  }

  /** A buffer may be recycled when its count is 0: no process refers to it, and while the rule is kept its
      contents, the latest, are on the disk. */
  lemma RecycleLosesNothing(s: State, b: nat, id: Id)
    requires Reachable(s) && CachedAt(s, b, id) && s.bufs[b].refcnt == 0
    ensures forall j: nat | j < |s.procs| :: Claims(s.procs[j], b) == 0
    ensures id in s.disk && id in s.view && (s.tidy ==> s.disk[id] == s.view[id])
  {
    hide Inv, Total;
    ReachableInv(s);
    forall j: nat | j < |s.procs| ensures Claims(s.procs[j], b) == 0 {
      Unreferenced(s, j, b);
    }
    Idle(s, b, id);
  }

  lemma Idle(s: State, b: nat, id: Id)
    requires Inv(s) && CachedAt(s, b, id) && s.bufs[b].refcnt == 0
    ensures id in s.disk && id in s.view && (s.tidy ==> s.disk[id] == s.view[id])
  {
    hide Inv, Total;
    FetchBuf(s, b);
    FetchDisk(s, id);
    if s.bufs[b].holder.Some? {
      TotalAtLeast(s.procs, s.bufs[b].holder.value, b);
    }
    forall c: nat | CachedAt(s, c, id) ensures c == b {
      FetchApart(s, b, c);
    }
  }

  lemma FetchBuf(s: State, b: nat)
    requires Inv(s) && b < |s.bufs|
    ensures |s.pins| == |s.bufs| && BufOk(s, b)
  {
  }

  // The rule is needed.

  lemma {:induction false} Extend(s: State, run: seq<(nat, Step)>, i: nat, step: Step)
    requires Run(s, run) && Enabled(Final(s, run), i, step)
    ensures Run(s, run + [(i, step)]) && Final(s, run + [(i, step)]) == Next(Final(s, run), i, step)
    decreases |run|
  {
    hide Enabled, Next;
    if run == [] {
      assert run + [(i, step)] == [(i, step)];
    } else {
      Extend(Next(s, run[0].0, run[0].1), run[1..], i, step);
      assert (run + [(i, step)])[1..] == run[1..] + [(i, step)];
    }
  }

  lemma ReachStep(s: State, i: nat, step: Step)
    requires Reachable(s) && Enabled(s, i, step)
    ensures Reachable(Next(s, i, step))
  {
    hide Enabled, Next, Initial;
    var s0, run :| Initial(s0) && Run(s0, run) && Final(s0, run) == s;
    Extend(s0, run, i, step);
  }

  lemma ReachInitial(s: State)
    requires Initial(s)
    ensures Reachable(s)
  {
    assert Run(s, []) && Final(s, []) == s;
  }

  const DISK: map<Id, Data> := map[(1, 0) := [0], (1, 1) := [0]]
  const IDLE := Proc(None, map[], None)

  /** One buffer, one process, two blocks. */
  function Single(buf: Buf, p: Proc, view: map<Id, Data>, tidy: bool): State {
    State([buf], [0], [p], DISK, view, tidy)
  }

  lemma ReachTo(s: State, step: Step, t: State)
    requires Reachable(s) && Enabled(s, 0, step)
    requires var n := Next(s, 0, step);
      n.bufs == t.bufs && n.pins == t.pins && n.procs == t.procs && n.disk == t.disk && n.view == t.view &&
        n.tidy == t.tidy
    ensures Reachable(t)
  {
    hide Reachable, Enabled, Next;
    ReachStep(s, 0, step);
  }

  const FIRST: Id := (1, 0)
  const SECOND: Id := (1, 1)

  function Using(valid: bool, data: Data, view: map<Id, Data>): State {
    Single(Buf(Some(FIRST), 1, Some(0), valid, data), IDLE.(has := map[0 := FIRST]), view, true)
  }

  lemma StoreDone()
    ensures Reachable(Using(true, [1], DISK[FIRST := [1]]))
  {
    hide Reachable;
    var s0 := Single(Buf(None, 0, None, false, []), IDLE, DISK, true);
    var s1 := Single(Buf(Some(FIRST), 1, None, false, []), IDLE.(wants := Some((0, FIRST))), DISK, true);
    ReachInitial(s0);
    ReachTo(s0, Miss(0, FIRST), s1);
    ReachTo(s1, Lock, Using(false, [], DISK));
    ReachTo(Using(false, [], DISK), Load(0), Using(true, [0], DISK));
    ReachTo(Using(true, [0], DISK), Store(0, [1]), Using(true, [1], DISK[FIRST := [1]]));
  }

  /** A process stores to a block and lets go of the buffer without a pin, and the buffer is recycled: the store is in
      no buffer and not on the disk. */
  lemma StoreLost() returns (s: State)
    ensures Reachable(s) && FIRST in s.view && FIRST in s.disk && s.disk[FIRST] != s.view[FIRST]
    ensures forall b: nat :: !CachedAt(s, b, FIRST)
  {
    hide Reachable;
    StoreDone();
    var view := DISK[FIRST := [1]];
    var s1 := Single(Buf(Some(FIRST), 1, None, true, [1]), IDLE.(drops := Some(0)), view, false);
    var s2 := Single(Buf(Some(FIRST), 0, None, true, [1]), IDLE, view, false);
    ReachTo(Using(true, [1], view), Unlock(0), s1);
    ReachTo(s1, Drop, s2);
    s := Single(Buf(Some(SECOND), 1, None, false, [1]), IDLE.(wants := Some((0, SECOND))), view, false);
    ReachTo(s2, Miss(0, SECOND), s);
  }
}
