/**
 File-system operations on top of the log: kernel/fs.c over kernel/log.c. A group of operations
 commits as one transaction. Whatever the crashes, the disk then holds the file system from before
 the group or the one after it, and over whole runs, from the image that mkfs makes, always a
 consistent one.

 How bitmaps, inodes and blocks are laid out in words is a parameter: any encoding will do.
 */
module CrashSafety {
  import opened Common
  import opened FileSystem
  import W = Wal

  type Words = seq<int>

  datatype Encoding = Encoding(bits: seq<bool> -> Words, inodes: Inodes -> Words, block: Block -> Words)

  /** Where the inodes and the bitmap are; the bitmap comes after the inodes. */
  datatype Super = Super(inodestart: nat, bmapstart: nat)

  /** The bits that one bitmap block holds. */
  function Chunk(used: seq<bool>, k: nat): seq<bool> {
    used[Min(k * BPB, |used|)..Min((k + 1) * BPB, |used|)]
  }

  /** The inodes that one block holds. */
  function InodesIn(sb: Super, inodes: Inodes, b: nat): Inodes {
    map i | i in inodes && InodeBlock(sb.inodestart, i) == b :: inodes[i]
  }

  /** The words of home block b. */
  function Encode(e: Encoding, sb: Super, s: Store, b: nat): Words {
    if IsBitBlock(sb.bmapstart, |s.used|, b) then e.bits(Chunk(s.used, b - sb.bmapstart))
    else if sb.inodestart <= b < sb.bmapstart then e.inodes(InodesIn(sb, s.inodes, b))
    else if b < |s.blocks| then e.block(s.blocks[b])
    else []
  }

  /** The home blocks of the disk hold the file system. */
  ghost predicate Encodes(e: Encoding, sb: Super, l: W.Layout, d: W.Disk, s: Store) {
    forall b: nat | b < |s.blocks| && !l.InLog(l.Home(b)) :: HoldsBlock(e, sb, l, d, s, b)
  }

  ghost predicate HoldsBlock(e: Encoding, sb: Super, l: W.Layout, d: W.Disk, s: Store, b: nat) {
    l.Home(b) in d && d[l.Home(b)] == Encode(e, sb, s, b)
  }

  /** Everything that changed was logged. */
  ghost predicate Covered(sb: Super, s: Store, s': Store, logged: set<nat>) {
    && |s'.used| == |s.used| && |s'.blocks| == |s.blocks|
    && (forall b | 0 <= b < |s.used| && s'.used[b] != s.used[b] :: BitBlock(sb.bmapstart, b) in logged)
    && (forall b | 0 <= b < |s.blocks| && s'.blocks[b] != s.blocks[b] :: b in logged)
    && (forall i | i in s.inodes || i in s'.inodes :: SameInode(s, s', i) || InodeBlock(sb.inodestart, i) in logged)
  }

  predicate SameInode(s: Store, s': Store, i: nat) {
    i in s.inodes && i in s'.inodes && s'.inodes[i] == s.inodes[i]
  }

  /** Operations of one group add up. */
  lemma CoveredTrans(sb: Super, s: Store, s': Store, s'': Store, logged: set<nat>, logged': set<nat>)
    requires Covered(sb, s, s', logged) && Covered(sb, s', s'', logged')
    ensures Covered(sb, s, s'', logged + logged')
  {
  }

  // Operations, as the contracts of writei and itrunc describe them.

  datatype Op = Write(i: nat, off: nat, src: seq<nat>) | Trunc(i: nat)

  /** writei refuses the operation, or there is no such file. */
  predicate Refuses(s: Store, op: Op) {
    op.i !in s.inodes || (op.Write? && (op.off > s.inodes[op.i].size || op.off + |op.src| > MAXFILE * BSIZE))
  }

  /** What an operation on inode i passed to log_write, of a change from s to s'. */
  ghost predicate LogsOp(sb: Super, s: Store, s': Store, i: nat, logged: set<nat>) {
    && OnlyInode(s.inodes, s'.inodes, i)
    && (LogsWrite(sb, s, s', i, logged)
        || (s'.blocks == s.blocks && LogsBits(sb.bmapstart, s.used, s'.used, {InodeBlock(sb.inodestart, i)}, logged)))
  }

  ghost predicate LogsWrite(sb: Super, s: Store, s': Store, i: nat, logged: set<nat>) {
    exists owner, owner', lo, hi ::
      Logs(sb.bmapstart, View({InodeBlock(sb.inodestart, i)}, s.used, s.blocks, owner),
          View(logged, s'.used, s'.blocks, owner'), i, lo, hi)
  }

  /** What it did to the files. */
  ghost predicate Does(op: Op, s: Store, s': Store)
    requires op.i in s.inodes
  {
    match op
    case Write(i, off, src) =>
      exists r: nat :: r <= |src| && Wrote(s.blocks, s.inodes, s'.blocks, s'.inodes, i, off, src[..r])
        && SizeIs(s.inodes, s'.inodes, i, Max(s.inodes[i].size, off + r))
    case Trunc(i) =>
      && SizeIs(s.inodes, s'.inodes, i, 0)
      && forall j: nat, a: nat | j != i :: FileByte(s'.blocks, s'.inodes, j, a) == FileByte(s.blocks, s.inodes, j, a)
  }

  ghost predicate OpStep(sb: Super, op: Op, s: Store, s': Store, logged: set<nat>) {
    if Refuses(s, op) then s' == s && logged == {}
    else Does(op, s, s') && Leads(s, s') && LogsOp(sb, s, s', op.i, logged)
  }

  /** What an operation logs covers everything it changes: bitmap, blocks and inode. */
  lemma OpCovers(sb: Super, op: Op, s: Store, s': Store, logged: set<nat>)
    requires OpStep(sb, op, s, s', logged)
    ensures Covered(sb, s, s', logged)
  {
    hide Does, Leads;
    if !Refuses(s, op) && LogsWrite(sb, s, s', op.i, logged) {
      var owner, owner', lo, hi :|
        Logs(sb.bmapstart, View({InodeBlock(sb.inodestart, op.i)}, s.used, s.blocks, owner),
            View(logged, s'.used, s'.blocks, owner'), op.i, lo, hi);
      WriteCovers(sb, s, s', op.i, logged, owner, owner', lo, hi);
    }
  }

  lemma WriteCovers(sb: Super, s: Store, s': Store, i: nat, logged: set<nat>, owner: Owners, owner': Owners, lo: nat,
      hi: nat)
    requires OnlyInode(s.inodes, s'.inodes, i)
    requires Logs(sb.bmapstart, View({InodeBlock(sb.inodestart, i)}, s.used, s.blocks, owner),
        View(logged, s'.used, s'.blocks, owner'), i, lo, hi)
    ensures Covered(sb, s, s', logged)
  {
  }

  /** And it keeps consistency. */
  lemma OpKeeps(sb: Super, nmeta: nat, op: Op, s: Store, s': Store, logged: set<nat>)
    requires OpStep(sb, op, s, s', logged) && Consistent(nmeta, s)
    ensures Consistent(nmeta, s')
  {
    hide Does, LogsOp, Leads, Consistent;
    if !Refuses(s, op) {
      LeadsKeeps(nmeta, s, s');
    }
  }

  /** Operations that commit together: the state before each and after the last, and what each logged. */
  datatype Group = Group(ops: seq<Op>, states: seq<Store>, logs: seq<set<nat>>)

  ghost predicate GroupOk(sb: Super, g: Group, s: Store) {
    && |g.states| == |g.ops| + 1 && |g.logs| == |g.ops| && g.states[0] == s
    && forall k: nat | k < |g.ops| :: StepAt(sb, g, k)
  }

  ghost predicate StepAt(sb: Super, g: Group, k: nat)
    requires k < |g.ops| == |g.logs| && |g.states| == |g.ops| + 1
  {
    OpStep(sb, g.ops[k], g.states[k], g.states[k + 1], g.logs[k])
  }

  ghost function Outcome(g: Group): Store
    requires |g.states| > 0
  {
    g.states[|g.states| - 1]
  }

  function Union(logs: seq<set<nat>>): set<nat> {
    if logs == [] then {} else Union(logs[..|logs| - 1]) + logs[|logs| - 1]
  }

  /** The first k operations of a group keep consistency and are covered by what they logged. */
  lemma {:induction false} GroupKeeps(sb: Super, nmeta: nat, g: Group, s: Store, k: nat)
    requires GroupOk(sb, g, s) && k <= |g.ops| && Consistent(nmeta, s)
    ensures Consistent(nmeta, g.states[k]) && Covered(sb, s, g.states[k], Union(g.logs[..k]))
  {
    hide Consistent, OpStep, Covered;
    if k == 0 {
      CoveredNone(sb, s);
      assert g.logs[..0] == [];
    } else {
      GroupKeeps(sb, nmeta, g, s, k - 1);
      assert StepAt(sb, g, k - 1);
      OpKeeps(sb, nmeta, g.ops[k - 1], g.states[k - 1], g.states[k], g.logs[k - 1]);
      OpCovers(sb, g.ops[k - 1], g.states[k - 1], g.states[k], g.logs[k - 1]);
      CoveredTrans(sb, s, g.states[k - 1], g.states[k], Union(g.logs[..k - 1]), g.logs[k - 1]);
      assert g.logs[..k][..k - 1] == g.logs[..k - 1];
    }
  }

  lemma CoveredNone(sb: Super, s: Store)
    ensures Covered(sb, s, s, {})
  {
  }

  // One block at a time.

  lemma ChunkSame(used: seq<bool>, used': seq<bool>, k: nat)
    requires |used'| == |used| && forall b: nat | b < |used| && b / BPB == k :: used'[b] == used[b]
    ensures Chunk(used', k) == Chunk(used, k)
  {
    var lo, hi := Min(k * BPB, |used|), Min((k + 1) * BPB, |used|);
    forall b: nat | lo <= b < hi ensures used'[b] == used[b] {
      assert b / BPB == k;
    }
  }

  /** A block that was not logged encodes to the same words. */
  lemma UnloggedSame(e: Encoding, sb: Super, s: Store, s': Store, logged: set<nat>, b: nat)
    requires Covered(sb, s, s', logged) && b !in logged && b < |s.blocks|
    ensures Encode(e, sb, s', b) == Encode(e, sb, s, b)
  {
    if IsBitBlock(sb.bmapstart, |s.used|, b) {
      ChunkSame(s.used, s'.used, b - sb.bmapstart);
    } else {
      assert InodesIn(sb, s'.inodes, b) == InodesIn(sb, s.inodes, b) by {
        assert forall i | i in s.inodes && InodeBlock(sb.inodestart, i) == b :: SameInode(s, s', i);
        assert forall i | i in s'.inodes && InodeBlock(sb.inodestart, i) == b :: SameInode(s, s', i);
      }
    }
  }

  function BlocksOf(lh: seq<nat>): set<nat> {
    set b | b in lh
  }

  /** The ideal disk after the transaction encodes the state after the group. */
  lemma AfterEncodes(e: Encoding, sb: Super, l: W.Layout, d: W.Disk, view: W.Disk, lh: seq<nat>, s: Store, s': Store)
    requires Encodes(e, sb, l, d, s) && Encodes(e, sb, l, view, s') && view.Keys == d.Keys
    requires Covered(sb, s, s', BlocksOf(lh))
    ensures Encodes(e, sb, l, W.After(l, d, view, lh), s')
  {
    hide Encode, Covered;
    var d' := W.After(l, d, view, lh);
    CoveredSize(sb, s, s', BlocksOf(lh));
    forall b: nat | b < |s'.blocks| && !l.InLog(l.Home(b)) ensures HoldsBlock(e, sb, l, d', s', b) {
      assert HoldsBlock(e, sb, l, d, s, b) && HoldsBlock(e, sb, l, view, s', b);
      if b !in lh {
        UnloggedSame(e, sb, s, s', BlocksOf(lh), b);
      }
    }
  }

  lemma CoveredSize(sb: Super, s: Store, s': Store, logged: set<nat>)
    requires Covered(sb, s, s', logged)
    ensures |s'.blocks| == |s.blocks|
  {
  }

  lemma SameHomeEncodes(e: Encoding, sb: Super, l: W.Layout, d: W.Disk, d': W.Disk, s: Store)
    requires Encodes(e, sb, l, d, s) && W.SameHome(l, d, d')
    ensures Encodes(e, sb, l, d', s)
  {
    hide Encode;
    forall b: nat | b < |s.blocks| && !l.InLog(l.Home(b)) ensures HoldsBlock(e, sb, l, d', s, b) {
      assert HoldsBlock(e, sb, l, d, s, b);
    }
  }

  /** The round commits the operations of the group: its list of blocks is what they logged, and the cache
      holds their outcome. */
  ghost predicate Commits(e: Encoding, sb: Super, l: W.Layout, r: W.Round, g: Group, s: Store) {
    GroupOk(sb, g, s) && Encodes(e, sb, l, r.view, Outcome(g)) && BlocksOf(r.lh) == Union(g.logs)
  }

  /** Crash atomicity of file-system operations: after the commit, or after any crash in it and any
      number of crashes in recovery, the disk holds all of the group or nothing of it, and all of it
      exactly when the header write happened. */
  lemma GroupIsAtomic(e: Encoding, sb: Super, nmeta: nat, l: W.Layout, d: W.Disk, r: W.Round, g: Group, s: Store)
    requires W.RoundOk(l, d, r) && Encodes(e, sb, l, d, s) && Commits(e, sb, l, r, g, s) && Consistent(nmeta, s)
    ensures Encodes(e, sb, l, W.AfterRound(l, d, r), if W.Durable(r) then Outcome(g) else s)
    ensures Consistent(nmeta, Outcome(g))
  {
    hide Encodes, Covered, W.AfterRound, W.LogOk, W.Loggable, W.SameHome, Consistent, StepAt;
    W.RoundIsAtomic(l, d, r);
    GroupKeeps(sb, nmeta, g, s, |g.ops|);
    assert g.logs[..|g.ops|] == g.logs;
    if W.Durable(r) {
      AfterEncodes(e, sb, l, d, r.view, r.lh, s, Outcome(g));
      SameHomeEncodes(e, sb, l, W.After(l, d, r.view, r.lh), W.AfterRound(l, d, r), Outcome(g));
    } else {
      SameHomeEncodes(e, sb, l, d, W.AfterRound(l, d, r), s);
    }
  }

  /** Every round starts from what the disk holds and commits a group of operations. */
  ghost predicate FsRun(e: Encoding, sb: Super, l: W.Layout, d: W.Disk, s: Store, rounds: seq<W.Round>,
      groups: seq<Group>)
    decreases |rounds|
  {
    |groups| == |rounds| && (rounds == [] || (
      && W.RoundOk(l, d, rounds[0]) && Commits(e, sb, l, rounds[0], groups[0], s)
      && FsRun(e, sb, l, W.AfterRound(l, d, rounds[0]), if W.Durable(rounds[0]) then Outcome(groups[0])
        else s, rounds[1..], groups[1..])))
  }

  /** The state after the run: that of the last round whose header write happened. */
  ghost function Survivor(s: Store, rounds: seq<W.Round>, groups: seq<Group>): Store
    requires |groups| == |rounds| && forall k | 0 <= k < |groups| :: |groups[k].states| > 0
    decreases |rounds|
  {
    if rounds == [] then s
      else Survivor(if W.Durable(rounds[0]) then Outcome(groups[0]) else s, rounds[1..], groups[1..])
  }

  /** Over whole runs of file-system operations, with crashes anywhere, the disk holds the outcome of the
      last durable group, and it is a consistent file system. */
  lemma {:induction false} RunIsConsistent(e: Encoding, sb: Super, nmeta: nat, l: W.Layout, d: W.Disk, s: Store,
      rounds: seq<W.Round>,
      groups: seq<Group>)
    requires FsRun(e, sb, l, d, s, rounds, groups) && Encodes(e, sb, l, d, s) && Consistent(nmeta, s)
    ensures W.RunFrom(l, d, rounds) && |groups| == |rounds| && forall k | 0 <= k < |groups| :: |groups[k].states| > 0
    ensures Encodes(e, sb, l, W.RunDisk(l, d, rounds), Survivor(s, rounds, groups))
    ensures Consistent(nmeta, Survivor(s, rounds, groups))
    decreases |rounds|
  {
    hide Encodes, Consistent, StepAt, W.RoundOk, W.AfterRound, W.Durable;
    if rounds != [] {
      var s' := if W.Durable(rounds[0]) then Outcome(groups[0]) else s;
      GroupIsAtomic(e, sb, nmeta, l, d, rounds[0], groups[0], s);
      RunIsConsistent(e, sb, nmeta, l, W.AfterRound(l, d, rounds[0]), s', rounds[1..], groups[1..]);
      assert forall k | 1 <= k < |groups| :: groups[k] == groups[1..][k - 1];
    }
  }
}
