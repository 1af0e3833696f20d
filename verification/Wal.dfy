/**
 The write-ahead log of kernel/log.c as lists of disk writes, and what a crash between any two of
 them leaves behind.

 A disk is a map from (device, block number) to a block of 32-bit words. One block write is atomic.
 The log occupies `size` blocks from `start`: the header block, then the log blocks. The header
 holds the count in word 0 and the home block numbers in the words after it.
 */
module Wal {
  import opened Bio

  type Disk = map<Id, Words>
  type Write = (Id, Words)

  datatype Layout = Layout(dev: nat, start: nat, size: nat) {
    function Header(): Id { (dev, start) }
    function Log(i: nat): Id { (dev, start + 1 + i) }
    function Home(b: nat): Id { (dev, b) }
    predicate InLog(id: Id) { id.0 == dev && start <= id.1 < start + size }
  }

  /** The disk after a list of writes, the last one last. */
  function Apply(d: Disk, ws: seq<Write>): Disk {
    if ws == [] then d else Apply(d, ws[..|ws| - 1])[ws[|ws| - 1].0 := ws[|ws| - 1].1]
  }

  /** write_head stores the count and that many block numbers, and leaves the rest of the block. */
  function HeaderWords(h: Words, lh: seq<nat>): Words
    requires |lh| < |h|
  {
    [|lh|] + lh + h[1 + |lh|..]
  }

  ghost predicate HeaderOk(h: Words) {
    |h| >= 1 && 0 <= h[0] < |h| && forall i | 1 <= i <= h[0] :: h[i] >= 0
  }

  /** read_head */
  function Targets(h: Words): seq<nat>
    requires HeaderOk(h)
  {
    h[1..1 + h[0]]
  }

  /** A list of blocks that can be logged: distinct home blocks of the disk, fitting the log. */
  ghost predicate Loggable(l: Layout, d: Disk, lh: seq<nat>) {
    && |lh| < l.size
    && (forall i | 0 <= i < |lh| :: l.Home(lh[i]) in d && !l.InLog(l.Home(lh[i])))
    && (forall i, j | 0 <= i < j < |lh| :: lh[i] != lh[j])
  }

  /** The log area exists and its header describes a transaction, possibly empty. */
  ghost predicate LogOk(l: Layout, d: Disk) {
    && l.size >= 1 && l.Header() in d && HeaderOk(d[l.Header()]) && l.size <= |d[l.Header()]|
    && (forall i: nat | i + 1 < l.size :: l.Log(i) in d)
    && Loggable(l, d, Targets(d[l.Header()]))
  }

  // The disk writes of each procedure, in order.

  /** write_log: the cached contents `view` of each logged block go to the log. */
  function LogWrites(l: Layout, view: Disk, lh: seq<nat>): (ws: seq<Write>)
    requires forall i | 0 <= i < |lh| :: l.Home(lh[i]) in view
  {
    seq(|lh|, i requires 0 <= i < |lh| => (l.Log(i), view[l.Home(lh[i])]))
  }

  /** install_trans: each log block goes to its home. */
  function InstallWrites(l: Layout, d: Disk, lh: seq<nat>): (ws: seq<Write>)
    requires forall i: nat | i < |lh| :: l.Log(i) in d
  {
    seq(|lh|, i requires 0 <= i < |lh| => (l.Home(lh[i]), d[l.Log(i)]))
  }

  /** commit, on a log whose header block holds h. */
  function CommitWrites(l: Layout, h: Words, view: Disk, lh: seq<nat>): seq<Write>
    requires |lh| < |h| && forall i | 0 <= i < |lh| :: l.Home(lh[i]) in view
  {
    if lh == [] then [] else
      LogWrites(l, view, lh)
      + [(l.Header(), HeaderWords(h, lh))]
      + seq(|lh|, i requires 0 <= i < |lh| => (l.Home(lh[i]), view[l.Home(lh[i])]))
      + [(l.Header(), HeaderWords(HeaderWords(h, lh), []))]
  }

  /** recover_from_log */
  function RecoverWrites(l: Layout, d: Disk): seq<Write>
    requires LogOk(l, d)
  {
    InstallWrites(l, d, Targets(d[l.Header()])) + [(l.Header(), HeaderWords(d[l.Header()], []))]
  }

  /** The disk when recovery has completed. */
  function Recovered(l: Layout, d: Disk): Disk
    requires LogOk(l, d)
  {
    Apply(d, RecoverWrites(l, d))
  }

  /** The same blocks outside the log area. */
  ghost predicate SameHome(l: Layout, d: Disk, d': Disk) {
    d.Keys == d'.Keys && forall id | id in d && !l.InLog(id) :: d'[id] == d[id]
  }

  /** The transaction's blocks take their new contents, all others stay. */
  ghost function After(l: Layout, d: Disk, view: Disk, lh: seq<nat>): Disk
    requires view.Keys == d.Keys
  {
    map id | id in d :: if Logged(l, lh, id) then view[id] else d[id]
  }

  ghost predicate Logged(l: Layout, lh: seq<nat>, id: Id) {
    id.0 == l.dev && id.1 in lh
  }

  lemma {:induction false} ApplyAt(d: Disk, ws: seq<Write>, i: nat)
    requires i < |ws| && forall j | i < j < |ws| :: ws[j].0 != ws[i].0
    ensures ws[i].0 in Apply(d, ws) && Apply(d, ws)[ws[i].0] == ws[i].1
  {
    if i < |ws| - 1 {
      ApplyAt(d, ws[..|ws| - 1], i);
    }
  }

  lemma {:induction false} ApplyElsewhere(d: Disk, ws: seq<Write>, id: Id)
    requires forall i | 0 <= i < |ws| :: ws[i].0 != id
    ensures id in Apply(d, ws) <==> id in d
    ensures id in d ==> Apply(d, ws)[id] == d[id]
  {
    if ws != [] {
      ApplyElsewhere(d, ws[..|ws| - 1], id);
    }
  }

  lemma {:induction false} ApplyKeys(d: Disk, ws: seq<Write>)
    requires forall i | 0 <= i < |ws| :: ws[i].0 in d
    ensures Apply(d, ws).Keys == d.Keys
  {
    if ws != [] {
      ApplyKeys(d, ws[..|ws| - 1]);
    }
  }

  lemma {:induction false} ApplyConcat(d: Disk, ws: seq<Write>, vs: seq<Write>)
    ensures Apply(d, ws + vs) == Apply(Apply(d, ws), vs)
  {
    if vs == [] {
      assert ws + vs == ws;
    } else {
      assert (ws + vs)[..|ws + vs| - 1] == ws + vs[..|vs| - 1];
      ApplyConcat(d, ws, vs[..|vs| - 1]);
    }
  }

  // Recovery.

  /** Position of a logged block in the list. */
  ghost function IndexOf(lh: seq<nat>, b: nat): (i: nat)
    requires b in lh
    ensures i < |lh| && lh[i] == b
  {
    var i: nat :| i < |lh| && lh[i] == b; i
  }

  /** Installing the first k logged blocks. */
  ghost predicate InstalledUpTo(l: Layout, d: Disk, lh: seq<nat>, k: nat, d': Disk)
    requires forall i: nat | i < |lh| :: l.Log(i) in d
  {
    && d'.Keys == d.Keys
    && (forall id | id in d && !(Logged(l, lh, id) && IndexOf(lh, id.1) < k) :: d'[id] == d[id])
    && (forall id | id in d && Logged(l, lh, id) && IndexOf(lh, id.1) < k :: d'[id] == d[l.Log(IndexOf(lh, id.1))])
  }

  lemma InstallPrefix(l: Layout, d: Disk, lh: seq<nat>, k: nat)
    requires Loggable(l, d, lh) && k <= |lh| && forall i: nat | i < |lh| :: l.Log(i) in d
    ensures InstalledUpTo(l, d, lh, k, Apply(d, InstallWrites(l, d, lh)[..k]))
  {
    var ws := InstallWrites(l, d, lh)[..k];
    ApplyKeys(d, ws);
    forall id | id in d && Logged(l, lh, id) && IndexOf(lh, id.1) < k
      ensures Apply(d, ws)[id] == d[l.Log(IndexOf(lh, id.1))]
    {
      ApplyAt(d, ws, IndexOf(lh, id.1));
    }
    forall id | id in d && !(Logged(l, lh, id) && IndexOf(lh, id.1) < k) ensures Apply(d, ws)[id] == d[id] {
      forall i | 0 <= i < |ws| ensures ws[i].0 != id {
        assert lh[i] in lh;
      }
      ApplyElsewhere(d, ws, id);
    }
  }

  /** What recovery leaves: every logged block at home, everything else unchanged, the log empty. */
  lemma RecoveredIs(l: Layout, d: Disk)
    requires LogOk(l, d)
    ensures var d', lh := Recovered(l, d), Targets(d[l.Header()]);
      && d'.Keys == d.Keys
      && d'[l.Header()] == HeaderWords(d[l.Header()], [])
      && (forall id | id in d && id != l.Header() ::
        d'[id] == if Logged(l, lh, id) then d[l.Log(IndexOf(lh, id.1))] else d[id])
      && LogOk(l, d') && Targets(d'[l.Header()]) == []
  {
    var lh, h := Targets(d[l.Header()]), HeaderWords(d[l.Header()], []);
    var ws := InstallWrites(l, d, lh);
    InstallPrefix(l, d, lh, |lh|);
    assert ws[..|lh|] == ws;
    ApplyConcat(d, ws, [(l.Header(), h)]);
    assert Apply(Apply(d, ws), [(l.Header(), h)]) == Apply(d, ws)[l.Header() := h];
    assert !Logged(l, lh, l.Header());
  }

  /** A crash during recovery, after any number of its writes, loses nothing: recovering again
      gives the same home blocks as recovering undisturbed. */
  lemma RecoveryCanCrash(l: Layout, d: Disk, k: nat)
    requires LogOk(l, d) && k <= |RecoverWrites(l, d)|
    ensures var d' := Apply(d, RecoverWrites(l, d)[..k]);
      LogOk(l, d') && SameHome(l, Recovered(l, d), Recovered(l, d'))
  {
    var lh, ws := Targets(d[l.Header()]), RecoverWrites(l, d);
    if k == |ws| {
      assert ws[..k] == ws;
      RecoveredIs(l, d);
      RecoveredIs(l, Recovered(l, d));
    } else {
      assert ws[..k] == InstallWrites(l, d, lh)[..k];
      InstallKeepsLog(l, d, k);
      RecoverAgain(l, d, Apply(d, ws[..k]));
    }
  }

  /** The log area and every block the log does not name are the same. */
  ghost predicate SameLog(l: Layout, d: Disk, d': Disk)
    requires LogOk(l, d)
  {
    && LogOk(l, d') && d'.Keys == d.Keys
    && (forall id | id in d && !Logged(l, Targets(d[l.Header()]), id) :: d'[id] == d[id])
  }

  /** A recovery cut off before the header is erased. */
  lemma InstallKeepsLog(l: Layout, d: Disk, k: nat)
    requires LogOk(l, d) && k <= |Targets(d[l.Header()])|
    ensures SameLog(l, d, Apply(d, InstallWrites(l, d, Targets(d[l.Header()]))[..k]))
  {
    var lh := Targets(d[l.Header()]);
    InstallPrefix(l, d, lh, k);
    assert !Logged(l, lh, l.Header());
  }

  lemma RecoverAgain(l: Layout, d: Disk, d': Disk)
    requires LogOk(l, d) && SameLog(l, d, d')
    ensures SameHome(l, Recovered(l, d), Recovered(l, d'))
  {
    hide Recovered, HeaderOk, Loggable;
    var lh := Targets(d[l.Header()]);
    assert !Logged(l, lh, l.Header()) by {
      HeaderNotLogged(l, d);
    }
    forall id | id in d && !l.InLog(id)
      ensures id in Recovered(l, d) && id in Recovered(l, d') && Recovered(l, d')[id] == Recovered(l, d)[id]
    {
      RecoveredAt(l, d, id);
      RecoveredAt(l, d', id);
    }
    RecoveredKeys(l, d);
    RecoveredKeys(l, d');
  }

  lemma HeaderNotLogged(l: Layout, d: Disk)
    requires LogOk(l, d)
    ensures forall id | l.InLog(id) :: !Logged(l, Targets(d[l.Header()]), id)
  {
  }

  lemma RecoveredKeys(l: Layout, d: Disk)
    requires LogOk(l, d)
    ensures Recovered(l, d).Keys == d.Keys
  {
    RecoveredIs(l, d);
  }

  lemma RecoveredAt(l: Layout, d: Disk, id: Id)
    requires LogOk(l, d) && id in d && !l.InLog(id)
    ensures id in Recovered(l, d)
    ensures var lh := Targets(d[l.Header()]); !Logged(l, lh, id) ==> Recovered(l, d)[id] == d[id]
    ensures var lh := Targets(d[l.Header()]); Logged(l, lh, id) ==>
      var from := l.Log(IndexOf(lh, id.1));
      from in d && !Logged(l, lh, from) && Recovered(l, d)[id] == d[from]
  {
    RecoveredIs(l, d);
  }

  lemma ApplyCut(d: Disk, ws: seq<Write>, vs: seq<Write>, k: nat)
    requires |ws| <= k <= |ws| + |vs|
    ensures Apply(d, (ws + vs)[..k]) == Apply(Apply(d, ws), vs[..k - |ws|])
  {
    assert (ws + vs)[..k] == ws + vs[..k - |ws|];
    ApplyConcat(d, ws, vs[..k - |ws|]);
  }

  // The blocks and words that these are, in numbers.

  /** The header block's first word is the number of logged blocks, and the next ones are their numbers. */
  ghost predicate Describes(h: Words, lh: seq<nat>) {
    |h| > |lh| && h[0] == |lh| && forall i | 0 <= i < |lh| :: h[1 + i] == lh[i]
  }

  lemma TargetsAre(h: Words)
    requires HeaderOk(h)
    ensures Describes(h, Targets(h))
  {
  }

  /** commit writes block i of the transaction to block start + 1 + i, then the header to block start, then each block
      to its home, and then a header without blocks. */
  lemma CommitList(l: Layout, h: Words, view: Disk, lh: seq<nat>)
    requires lh != [] && |lh| < |h| && forall i | 0 <= i < |lh| :: l.Home(lh[i]) in view
    ensures var ws, n := CommitWrites(l, h, view, lh), |lh|;
      && |ws| == 2 * n + 2
      && (forall i | 0 <= i < n :: (l.dev, lh[i]) in view && ws[i] == ((l.dev, l.start + 1 + i), view[(l.dev, lh[i])]))
      && ws[n].0 == (l.dev, l.start) && Describes(ws[n].1, lh)
      && (forall i | 0 <= i < n :: ws[n + 1 + i] == ((l.dev, lh[i]), view[(l.dev, lh[i])]))
      && ws[2 * n + 1].0 == (l.dev, l.start) && Describes(ws[2 * n + 1].1, [])
  {
    forall i | 0 <= i < |lh| ensures (l.dev, lh[i]) in view {
      assert l.Home(lh[i]) in view;
    }
  }

  /** Write i is block start + 1 + i of the disk to the home of block i of the list. */
  ghost predicate InstallsAt(l: Layout, d: Disk, lh: seq<nat>, ws: seq<Write>, i: nat) {
    var from := (l.dev, l.start + 1 + i);
    i < |lh| && i < |ws| && from in d && ws[i] == ((l.dev, lh[i]), d[from])
  }

  /** recovery writes each block of the log that the header describes to its home, and then a header without blocks. */
  lemma RecoverList(l: Layout, d: Disk)
    requires LogOk(l, d)
    ensures var ws, lh := RecoverWrites(l, d), Targets(d[l.Header()]);
      && Describes(d[(l.dev, l.start)], lh) && |ws| == |lh| + 1 &&
        (forall i: nat | i < |lh| :: InstallsAt(l, d, lh, ws, i))
      && ws[|lh|].0 == (l.dev, l.start) && Describes(ws[|lh|].1, [])
  {
    var ws, lh := RecoverWrites(l, d), Targets(d[l.Header()]);
    forall i: nat | i < |lh| ensures InstallsAt(l, d, lh, ws, i) {
      assert l.Log(i) in d && l.Log(i) == (l.dev, l.start + 1 + i);
    }
  }

  // Commit.

  /** A log that is empty and a transaction that fits it. */
  ghost predicate CanCommit(l: Layout, d: Disk, view: Disk, lh: seq<nat>) {
    LogOk(l, d) && Targets(d[l.Header()]) == [] && Loggable(l, d, lh) && view.Keys == d.Keys
  }

  function CommitOf(l: Layout, d: Disk, view: Disk, lh: seq<nat>): seq<Write>
    requires CanCommit(l, d, view, lh)
  {
    CommitWrites(l, d[l.Header()], view, lh)
  }

  /** Before the header write only log blocks have changed. */
  lemma LogPrefix(l: Layout, d: Disk, view: Disk, lh: seq<nat>, k: nat)
    requires CanCommit(l, d, view, lh) && k <= |lh|
    ensures var d' := Apply(d, LogWrites(l, view, lh)[..k]);
      && d'.Keys == d.Keys
      && (forall id | id in d && (!l.InLog(id) || id == l.Header()) :: d'[id] == d[id])
      && (forall i: nat | i < k :: d'[l.Log(i)] == view[l.Home(lh[i])])
  {
    var ws := LogWrites(l, view, lh)[..k];
    ApplyKeys(d, ws);
    forall id | id in d && (!l.InLog(id) || id == l.Header()) ensures Apply(d, ws)[id] == d[id] {
      ApplyElsewhere(d, ws, id);
    }
    forall i: nat | i < k ensures Apply(d, ws)[l.Log(i)] == view[l.Home(lh[i])] {
      ApplyAt(d, ws, i);
    }
  }

  /** The disk at the commit point: log written, header naming the transaction. */
  function AtCommitPoint(l: Layout, d: Disk, view: Disk, lh: seq<nat>): Disk
    requires CanCommit(l, d, view, lh)
  {
    Apply(d, LogWrites(l, view, lh))[l.Header() := HeaderWords(d[l.Header()], lh)]
  }

  lemma CommitPoint(l: Layout, d: Disk, view: Disk, lh: seq<nat>)
    requires CanCommit(l, d, view, lh)
    ensures var d1 := AtCommitPoint(l, d, view, lh);
      && LogOk(l, d1) && Targets(d1[l.Header()]) == lh
      && SameHome(l, d, d1)
      && (forall i: nat | i < |lh| :: d1[l.Log(i)] == view[l.Home(lh[i])])
  {
    LogPrefix(l, d, view, lh, |lh|);
    assert LogWrites(l, view, lh)[..|lh|] == LogWrites(l, view, lh);
    var h := HeaderWords(d[l.Header()], lh);
    assert h[1..1 + h[0]] == lh;
  }

  /** From the commit point on, commit performs exactly the writes of a recovery. */
  lemma CommitTail(l: Layout, d: Disk, view: Disk, lh: seq<nat>)
    requires CanCommit(l, d, view, lh) && lh != []
    ensures LogOk(l, AtCommitPoint(l, d, view, lh))
    ensures CommitOf(l, d, view, lh) == LogWrites(l, view, lh)
      + [(l.Header(), HeaderWords(d[l.Header()], lh))] + RecoverWrites(l, AtCommitPoint(l, d, view, lh))
  {
    CommitPoint(l, d, view, lh);
    var d1 := AtCommitPoint(l, d, view, lh);
    assert InstallWrites(l, d1, lh) == seq(|lh|, i requires 0 <= i < |lh| => (l.Home(lh[i]), view[l.Home(lh[i])]));
  }

  /** Recovering from the commit point installs the whole transaction. */
  lemma CommitPointRecovers(l: Layout, d: Disk, view: Disk, lh: seq<nat>)
    requires CanCommit(l, d, view, lh)
    ensures LogOk(l, AtCommitPoint(l, d, view, lh))
    ensures SameHome(l, After(l, d, view, lh), Recovered(l, AtCommitPoint(l, d, view, lh)))
  {
    CommitPoint(l, d, view, lh);
    var d1 := AtCommitPoint(l, d, view, lh);
    RecoveredIs(l, d1);
    forall id | id in d && !l.InLog(id) ensures Recovered(l, d1)[id] == After(l, d, view, lh)[id] {
      if Logged(l, lh, id) {
        assert l.Home(lh[IndexOf(lh, id.1)]) == id;
      }
    }
  }

  /** Commit cut off before the header write. */
  lemma CutBeforeHeader(l: Layout, d: Disk, view: Disk, lh: seq<nat>, k: nat)
    requires CanCommit(l, d, view, lh) && k <= |lh|
    ensures k <= |CommitOf(l, d, view, lh)|
    ensures var d' := Apply(d, CommitOf(l, d, view, lh)[..k]); LogOk(l, d') && SameHome(l, d, Recovered(l, d'))
  {
    assert CommitOf(l, d, view, lh)[..k] == LogWrites(l, view, lh)[..k];
    LogPrefix(l, d, view, lh, k);
    RecoveredIs(l, Apply(d, LogWrites(l, view, lh)[..k]));
  }

  /** Commit cut off after the header write is a recovery cut off after the remaining writes. */
  lemma CutAfterHeader(l: Layout, d: Disk, view: Disk, lh: seq<nat>, k: nat)
    requires CanCommit(l, d, view, lh) && |lh| < k <= |CommitOf(l, d, view, lh)|
    ensures LogOk(l, AtCommitPoint(l, d, view, lh))
    ensures var d1 := AtCommitPoint(l, d, view, lh);
      && k - |lh| - 1 <= |RecoverWrites(l, d1)|
      && Apply(d, CommitOf(l, d, view, lh)[..k]) == Apply(d1, RecoverWrites(l, d1)[..k - |lh| - 1])
  {
    hide RecoverWrites;
    CommitTail(l, d, view, lh);
    var d1, w := AtCommitPoint(l, d, view, lh), (l.Header(), HeaderWords(d[l.Header()], lh));
    ApplyCut(d, LogWrites(l, view, lh) + [w], RecoverWrites(l, d1), k);
    ApplyConcat(d, LogWrites(l, view, lh), [w]);
  }

  /** Crash atomicity: stop commit after any k of its writes, recover, and the home blocks are the
      old ones, or the new ones of the whole transaction; new exactly when the header was written. */
  lemma CommitIsAtomic(l: Layout, d: Disk, view: Disk, lh: seq<nat>, k: nat)
    requires CanCommit(l, d, view, lh) && k <= |CommitOf(l, d, view, lh)|
    ensures var d' := Apply(d, CommitOf(l, d, view, lh)[..k]);
      LogOk(l, d') && SameHome(l, if k > |lh| then After(l, d, view, lh) else d, Recovered(l, d'))
  {
    hide LogOk, CommitOf, RecoverWrites, Recovered, AtCommitPoint;
    if k <= |lh| {
      CutBeforeHeader(l, d, view, lh, k);
    } else {
      CutAfterHeader(l, d, view, lh, k);
      CommitPointRecovers(l, d, view, lh);
      RecoveryCanCrash(l, AtCommitPoint(l, d, view, lh), k - |lh| - 1);
    }
  }

  // Any number of crashes, and whole runs.

  /** The disk after recovery was started and cut off once for each entry of `cuts`. */
  function Disturbed(l: Layout, d: Disk, cuts: seq<nat>): (r: Disk)
    requires LogOk(l, d)
    ensures LogOk(l, r) && SameHome(l, Recovered(l, d), Recovered(l, r))
    decreases |cuts|
  {
    if cuts == [] then d else
      var ws := RecoverWrites(l, d);
      var k := if cuts[0] <= |ws| then cuts[0] else |ws|;
      RecoveryCanCrash(l, d, k);
      Disturbed(l, Apply(d, ws[..k]), cuts[1..])
  }

  /** One round of a run: a transaction whose commit completes, or is cut off after `at` writes and
      followed by any number of interrupted recoveries and a completed one. */
  datatype Round = Complete(view: Disk, lh: seq<nat>) | Crash(view: Disk, lh: seq<nat>, at: nat, cuts: seq<nat>)

  ghost predicate RoundOk(l: Layout, d: Disk, r: Round) {
    CanCommit(l, d, r.view, r.lh) && (r.Crash? ==> r.at <= |CommitOf(l, d, r.view, r.lh)|)
  }

  ghost predicate Durable(r: Round) {
    r.Complete? || r.at > |r.lh|
  }

  function AfterRound(l: Layout, d: Disk, r: Round): (d': Disk)
    requires RoundOk(l, d, r)
  {
    var ws := CommitOf(l, d, r.view, r.lh);
    match r
    case Complete(_, _) => Apply(d, ws)
    case Crash(_, _, at, cuts) =>
      CommitIsAtomic(l, d, r.view, r.lh, at);
      Recovered(l, Disturbed(l, Apply(d, ws[..at]), cuts))
  }

  /** After each round the log is empty again and the home blocks are those of an atomic transaction
      that happened, or did not. */
  lemma RoundIsAtomic(l: Layout, d: Disk, r: Round)
    requires RoundOk(l, d, r)
    ensures var d' := AfterRound(l, d, r);
      && LogOk(l, d') && Targets(d'[l.Header()]) == []
      && SameHome(l, if Durable(r) then After(l, d, r.view, r.lh) else d, d')
  {
    var ws := CommitOf(l, d, r.view, r.lh);
    match r
    case Complete(view, lh) =>
      if lh == [] {
        assert After(l, d, view, lh) == d;
      } else {
        CommitTail(l, d, view, lh);
        CommitPointRecovers(l, d, view, lh);
        var d1 := AtCommitPoint(l, d, view, lh);
        ApplyConcat(d, LogWrites(l, view, lh) + [(l.Header(), HeaderWords(d[l.Header()], lh))], RecoverWrites(l, d1));
        ApplyConcat(d, LogWrites(l, view, lh), [(l.Header(), HeaderWords(d[l.Header()], lh))]);
        RecoveredIs(l, d1);
      }
    case Crash(view, lh, at, cuts) =>
      CommitIsAtomic(l, d, view, lh, at);
      RecoveredIs(l, Disturbed(l, Apply(d, ws[..at]), cuts));
  }

  /** A run from disk d: the disks between rounds, and the home blocks that an ideal disk, which
      applies whole transactions, would have. */
  ghost predicate RunFrom(l: Layout, d: Disk, rounds: seq<Round>)
    decreases |rounds|
  {
    rounds == [] || (RoundOk(l, d, rounds[0]) && RunFrom(l, AfterRound(l, d, rounds[0]), rounds[1..]))
  }

  ghost function RunDisk(l: Layout, d: Disk, rounds: seq<Round>): Disk
    requires RunFrom(l, d, rounds)
    decreases |rounds|
  {
    if rounds == [] then d else RunDisk(l, AfterRound(l, d, rounds[0]), rounds[1..])
  }

  ghost function Ideal(l: Layout, d: Disk, rounds: seq<Round>): Disk
    decreases |rounds|
  {
    if rounds == [] then d
    else if Durable(rounds[0]) && rounds[0].view.Keys == d.Keys
    then Ideal(l, After(l, d, rounds[0].view, rounds[0].lh), rounds[1..])
    else Ideal(l, d, rounds[1..])
  }

  /** Over whole runs with crashes anywhere, the persistent home blocks are those of applying, in
      order, exactly the transactions whose header write happened. */
  lemma {:induction false} RunsAreAtomic(l: Layout, d: Disk, ideal: Disk, rounds: seq<Round>)
    requires RunFrom(l, d, rounds) && SameHome(l, ideal, d)
    ensures SameHome(l, Ideal(l, ideal, rounds), RunDisk(l, d, rounds))
    decreases |rounds|
  {
    if rounds != [] {
      var r := rounds[0];
      RoundIsAtomic(l, d, r);
      RunsAreAtomic(l, AfterRound(l, d, r), if Durable(r) then After(l, ideal, r.view, r.lh) else ideal, rounds[1..]);
    }
  }
}
