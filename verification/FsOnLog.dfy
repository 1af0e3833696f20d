/**
 The file system of kernel/fs.c running on the log of kernel/log.c: operations change the file system
 that the cache holds, every block they log goes through log_write, and the last operation of a group
 commits. This ties the runs that CrashSafety reasons about to the code.
 */
module FsOnLog {
  import opened Common
  import opened FileSystem
  import opened CrashSafety
  import W = Wal
  import B = Bio
  import J = Journal
  import M = Mkfs
  import D = Directory
  import F = FileWrite
  import R = Reservation

  /** The disk layout of mkfs: the log, then the inodes, then the bitmap, then the data blocks. */
  ghost predicate Placed(l: W.Layout, sb: Super, nmeta: nat, s: Store) {
    && l.start + l.size <= sb.inodestart && 0 < nmeta <= |s.used| == |s.blocks|
    && (forall i | i in s.inodes :: InodeBlock(sb.inodestart, i) < sb.bmapstart)
    && sb.inodestart <= sb.bmapstart && BitBlock(sb.bmapstart, |s.used| - 1) < nmeta
  }

  /** Blocks outside the log. */
  ghost predicate AtHome(l: W.Layout, size: nat, logged: set<nat>) {
    forall b | b in logged :: b < size && !l.InLog(l.Home(b))
  }

  lemma LoggedAtHome(l: W.Layout, sb: Super, nmeta: nat, s: Store, owner: Owners, i: nat, logged: set<nat>)
    requires Placed(l, sb, nmeta, s) && FsOk(nmeta, s.used, s.blocks, s.inodes, owner) && i in s.inodes
    requires forall b | b in logged ::
      b == InodeBlock(sb.inodestart, i) || IsBitBlock(sb.bmapstart, |s.used|, b) || b in owner
    ensures AtHome(l, |s.blocks|, logged)
  {
    hide RefsOk;
  }

  /** Different contents have different words. */
  ghost predicate Faithful(e: Encoding) {
    && (forall x, y | e.bits(x) == e.bits(y) :: x == y) && (forall x, y | e.inodes(x) == e.inodes(y) :: x == y)
    && (forall x, y | e.block(x) == e.block(y) :: x == y)
  }

  /** A disk holds one file system: its bitmap, its inodes and its data blocks are all there. */
  lemma OneStore(e: Encoding, sb: Super, l: W.Layout, d: W.Disk, nmeta: nat, s: Store, s': Store)
    requires Faithful(e) && Placed(l, sb, nmeta, s) && Placed(l, sb, nmeta, s') && |s.blocks| == |s'.blocks|
    requires Encodes(e, sb, l, d, s) && Encodes(e, sb, l, d, s')
    ensures s.used == s'.used && s.inodes == s'.inodes
    ensures forall b: nat | nmeta <= b < |s.blocks| :: s.blocks[b] == s'.blocks[b]
  {
    forall b: nat | b < |s.blocks| && !l.InLog(l.Home(b)) ensures Encode(e, sb, s, b) == Encode(e, sb, s', b) {
      assert HoldsBlock(e, sb, l, d, s, b) && HoldsBlock(e, sb, l, d, s', b);
    }
    forall b: nat | nmeta <= b < |s.blocks| ensures s.blocks[b] == s'.blocks[b] {
      assert sb.bmapstart <= BitBlock(sb.bmapstart, |s.used| - 1) < nmeta && !l.InLog(l.Home(b));
      assert Encode(e, sb, s, b) == e.block(s.blocks[b]) && Encode(e, sb, s', b) == e.block(s'.blocks[b]);
    }
    forall c: nat | c < |s.used| ensures s.used[c] == s'.used[c] {
      SameBits(e, sb, l, nmeta, s, s', c);
    }
    forall i ensures i in s.inodes <==> i in s'.inodes {
      SameInodes(e, sb, l, nmeta, s, s', i);
    }
    forall i | i in s.inodes ensures i in s'.inodes && s.inodes[i] == s'.inodes[i] {
      SameInodes(e, sb, l, nmeta, s, s', i);
    }
  }

  ghost predicate SameWords(e: Encoding, sb: Super, l: W.Layout, s: Store, s': Store) {
    |s.blocks| == |s'.blocks| && forall b: nat | b < |s.blocks| && !l.InLog(l.Home(b)) ::
      Encode(e, sb, s, b) == Encode(e, sb, s', b)
  }

  lemma SameBits(e: Encoding, sb: Super, l: W.Layout, nmeta: nat, s: Store, s': Store, c: nat)
    requires Faithful(e) && Placed(l, sb, nmeta, s) && Placed(l, sb, nmeta, s') && SameWords(e, sb, l, s, s')
    requires c < |s.used|
    ensures s.used[c] == s'.used[c]
  {
    var b, k := BitBlock(sb.bmapstart, c), c / BPB;
    assert IsBitBlock(sb.bmapstart, |s.used|, b) && !l.InLog(l.Home(b));
    assert Encode(e, sb, s, b) == e.bits(Chunk(s.used, k)) && Encode(e, sb, s', b) == e.bits(Chunk(s'.used, k));
    assert Chunk(s.used, k)[c - k * BPB] == s.used[c] && Chunk(s'.used, k)[c - k * BPB] == s'.used[c];
  }

  lemma SameInodes(e: Encoding, sb: Super, l: W.Layout, nmeta: nat, s: Store, s': Store, i: nat)
    requires Faithful(e) && Placed(l, sb, nmeta, s) && Placed(l, sb, nmeta, s') && SameWords(e, sb, l, s, s')
    ensures (i in s.inodes <==> i in s'.inodes) && (i in s.inodes ==> s.inodes[i] == s'.inodes[i])
  {
    var b := InodeBlock(sb.inodestart, i);
    if i in s.inodes || i in s'.inodes {
      assert sb.inodestart <= b < sb.bmapstart && !l.InLog(l.Home(b)) && b < |s.blocks|;
      assert !IsBitBlock(sb.bmapstart, |s.used|, b) && !IsBitBlock(sb.bmapstart, |s'.used|, b);
      assert Encode(e, sb, s, b) == Encode(e, sb, s', b);
      var x, y := InodesIn(sb, s.inodes, b), InodesIn(sb, s'.inodes, b);
      assert x == y;
      assert i in x <==> i in s.inodes;
      assert i in y <==> i in s'.inodes;
    }
  }

  lemma StillPlaced(l: W.Layout, sb: Super, nmeta: nat, s: Store, s': Store, i: nat)
    requires Placed(l, sb, nmeta, s) && i in s.inodes && OnlyInode(s.inodes, s'.inodes, i)
    requires |s'.used| == |s.used| && |s'.blocks| == |s.blocks|
    ensures Placed(l, sb, nmeta, s')
  {
  }

  /** The arguments of a system call fit 32 bits. */
  predicate Fits(op: Op) {
    op.Write? ==> op.off < TWO32 && |op.src| < TWO32
  }

  /** The most blocks that an operation logs: its data blocks and the indirect block, the inode, the bitmap. */
  function OpEntries(op: Op, size: nat): nat {
    match op
    case Write(_, off, src) => Spans(off, |src|) + 2 + F.BitBlocks(size)
    case Trunc(_) => 1 + F.BitBlocks(size)
  }

  /** One operation, its log_write calls collected. */
  method Perform(fs: Fs, op: Op, ghost l: W.Layout) returns (ghost sb: Super)
    requires fs.Valid() && Fits(op) && Placed(l, Super(fs.inodestart, fs.bmapstart), fs.nmeta, fs.Now())
    modifies fs
    ensures sb == Super(fs.inodestart, fs.bmapstart) && fs.Valid() && OpStep(sb, op, old(fs.Now()), fs.Now(), fs.logged)
    ensures Placed(l, sb, fs.nmeta, fs.Now()) && AtHome(l, |fs.blocks|, fs.logged) && |fs.blocks| == |old(fs.blocks)|
    ensures |fs.logged| <= OpEntries(op, |fs.used|) && |fs.used| == |old(fs.used)|
  {
    hide FsOk, Leads, Logs, LogsBits, At, FileByte, Wrote, SizeIs, Stays, Placed, AtHome, InodeBlock, BitBlock;
    sb := Super(fs.inodestart, fs.bmapstart);
    fs.logged := {};
    if op.i !in fs.inodes {
      NothingAtHome(l, |fs.blocks|);
      return;
    }
    match op {
      case Write(i, off, src) =>
        ghost var s, v := fs.Now(), fs.Seen();
        assert v.logged + {InodeBlock(fs.inodestart, i)} == {InodeBlock(fs.inodestart, i)};
        var r, spill := fs.Writei(i, off, src, |src|);
        if r == -1 {
          NothingAtHome(l, |fs.blocks|);
        } else {
          WriteDone(l, sb, fs.nmeta, op, s, fs.Now(), v, fs.Seen(), r, off / BSIZE, off / BSIZE + Spans(off, |src|));
        }
      case Trunc(i) =>
        ghost var s := fs.Now();
        assert fs.logged + {InodeBlock(fs.inodestart, i)} == {InodeBlock(fs.inodestart, i)};
        var ok := fs.Itrunc(i);
        TruncDone(l, sb, fs.nmeta, op, s, fs.Now(), fs.owner, fs.logged);
    }
  }

  lemma NothingAtHome(l: W.Layout, size: nat)
    ensures AtHome(l, size, {})
  {
  }

  lemma WriteDone(l: W.Layout, sb: Super, nmeta: nat, op: Op, s: Store, s': Store, v: View, w: View, r: nat, lo: nat,
      hi: nat)
    requires op.Write? && op.i in s.inodes && !Refuses(s, op) && Placed(l, sb, nmeta, s) && v.used == s.used
    requires v.blocks == s.blocks
    requires w.used == s'.used && w.blocks == s'.blocks && FsOk(nmeta, s'.used, s'.blocks, s'.inodes, w.owner)
    requires Logs(sb.bmapstart, v.(logged := {InodeBlock(sb.inodestart, op.i)}), w, op.i, lo, hi) && Leads(s, s')
    requires hi == lo + Spans(op.off, |op.src|)
    requires r <= |op.src| && Wrote(s.blocks, s.inodes, s'.blocks, s'.inodes, op.i, op.off, op.src[..r])
    requires SizeIs(s.inodes, s'.inodes, op.i, Max(s.inodes[op.i].size, op.off + r))
    requires OnlyInode(s.inodes, s'.inodes, op.i)
    ensures OpStep(sb, op, s, s', w.logged) && Placed(l, sb, nmeta, s') && AtHome(l, |s'.blocks|, w.logged)
    ensures |s'.blocks| == |s.blocks| && |s'.used| == |s.used| && |w.logged| <= OpEntries(op, |s'.used|)
  {
    hide FsOk, Leads, Wrote, SizeIs, AtHome, Placed;
    F.LogsCard(sb.bmapstart, nmeta, v.(logged := {InodeBlock(sb.inodestart, op.i)}), w, s'.inodes, op.i, lo, hi - lo);
    assert LogsWrite(sb, s, s', op.i, w.logged) by {
      assert Logs(sb.bmapstart, View({InodeBlock(sb.inodestart, op.i)}, s.used, s.blocks, v.owner),
          View(w.logged, s'.used, s'.blocks, w.owner), op.i, lo, hi);
    }
    StillPlaced(l, sb, nmeta, s, s', op.i);
    LoggedAtHome(l, sb, nmeta, s', w.owner, op.i, w.logged);
  }

  lemma TruncDone(l: W.Layout, sb: Super, nmeta: nat, op: Op, s: Store, s': Store, owner: Owners, logged: set<nat>)
    requires op.Trunc? && op.i in s.inodes && Placed(l, sb, nmeta, s) && s'.blocks == s.blocks && Leads(s, s')
    requires FsOk(nmeta, s'.used, s'.blocks, s'.inodes, owner) && OnlyInode(s.inodes, s'.inodes, op.i)
    requires s'.inodes[op.i].size == 0
    requires LogsBits(sb.bmapstart, s.used, s'.used, {InodeBlock(sb.inodestart, op.i)}, logged)
    requires forall j: nat, a: nat | j != op.i ::
      FileByte(s'.blocks, s'.inodes, j, a) == FileByte(s.blocks, s.inodes, j, a)
    ensures OpStep(sb, op, s, s', logged) && Placed(l, sb, nmeta, s') && AtHome(l, |s'.blocks|, logged)
    ensures |s'.used| == |s.used| && |logged| <= OpEntries(op, |s'.used|)
  {
    hide FsOk, Leads, AtHome, Placed, FileByte;
    BitsCard(sb.bmapstart, |s'.used|, InodeBlock(sb.inodestart, op.i), logged);
    StillPlaced(l, sb, nmeta, s, s', op.i);
    LoggedAtHome(l, sb, nmeta, s', owner, op.i, logged);
  }

  lemma BitsCard(bmapstart: nat, size: nat, inode: nat, logged: set<nat>)
    requires forall b | b in logged :: b == inode || IsBitBlock(bmapstart, size, b)
    ensures |logged| <= 1 + F.BitBlocks(size)
  {
    var bits := set b | b in logged && IsBitBlock(bmapstart, size, b);
    RangeCard(bits, bmapstart, F.BitBlocks(size));
    CardUnion({inode}, bits);
    CardSubset(logged, {inode} + bits);
  }

  // The cache and the log.

  /** Exactly the blocks of todo have the contents that s has for them. */
  ghost predicate Recorded(l: W.Layout, e: Encoding, sb: Super, s: Store, todo: set<nat>, v: W.Disk, v': W.Disk) {
    v'.Keys == v.Keys && forall id | id in v ::
      v'[id] == if id.0 == l.dev && id.1 in todo then Encode(e, sb, s, id.1) else v[id]
  }

  lemma RecordedNone(l: W.Layout, e: Encoding, sb: Super, s: Store, v: W.Disk)
    ensures Recorded(l, e, sb, s, {}, v, v)
  {
  }

  lemma RecordedMore(l: W.Layout, e: Encoding, sb: Super, s: Store, todo: set<nat>, b: nat, v: W.Disk, v': W.Disk)
    requires Recorded(l, e, sb, s, todo, v, v') && l.Home(b) in v
    ensures Recorded(l, e, sb, s, todo + {b}, v, v'[l.Home(b) := Encode(e, sb, s, b)])
  {
    hide Encode;
  }

  lemma BlocksMore(lh: seq<nat>, lh': seq<nat>, done: set<nat>, b: nat, lh0: seq<nat>)
    requires BlocksOf(lh) == BlocksOf(lh0) + done && lh' == if b in lh then lh else lh + [b]
    ensures BlocksOf(lh') == BlocksOf(lh0) + (done + {b})
  {
    assert forall x: nat :: x in BlocksOf(lh') <==> x in BlocksOf(lh) || x == b;
  }

  /** The log lists each block once. */
  lemma {:induction false} BlocksCard(lh: seq<nat>)
    requires forall i, j | 0 <= i < j < |lh| :: lh[i] != lh[j]
    ensures |BlocksOf(lh)| == |lh|
  {
    if lh != [] {
      var n := |lh| - 1;
      BlocksCard(lh[..n]);
      assert BlocksOf(lh) == BlocksOf(lh[..n]) + {lh[n]};
    }
  }

  lemma OpenCard(log: J.Log)
    requires log.Open()
    ensures |BlocksOf(log.lh)| == |log.lh| && log.bc.refs.Keys == log.bc.disk.Keys
  {
    hide BlocksOf;
    BlocksCard(log.lh);
    J.KeysAgree(log.bc.buf, log.bc.order, log.bc.disk, log.bc.view, log.bc.refs, log.bc.held);
  }

  /** The log can take n blocks in all, one of them twice if it must. */
  predicate Room(n: nat, size: nat, nbuf: nat, twice: bool) {
    n <= nbuf && (n == 0 || !R.LogFull(if twice then n else n - 1, size))
  }

  /** The blocks in `done` have been logged since the log was lh0 and the cache v0. */
  ghost predicate Recording(log: J.Log, e: Encoding, sb: Super, s: Store, done: set<nat>, lh0: seq<nat>, v0: W.Disk)
    reads log, log.bc
  {
    && log.Open() && log.bc.held == {} && BlocksOf(log.lh) == BlocksOf(lh0) + done
    && Recorded(log.l, e, sb, s, done, v0, log.bc.view)
  }

  /** One of the log_write calls of an operation: bread, the new contents, log_write, brelse. */
  method RecordOne(log: J.Log, e: Encoding, sb: Super, s: Store, b: nat, ghost done: set<nat>, ghost lh0: seq<nat>,
      ghost v0: W.Disk)
    returns (ok: bool)
    requires Recording(log, e, sb, s, done, lh0, v0) && log.l.Home(b) in v0 && !log.l.InLog(log.l.Home(b))
    modifies log`lh, log.bc
    ensures log.bc.disk == old(log.bc.disk)
    ensures ok ==> Recording(log, e, sb, s, done + {b}, lh0, v0)
    ensures ok ==> |log.lh| == |old(log.lh)| + if b in old(log.lh) then 0 else 1
    ensures ok <==>
      && log.outstanding >= 1 && !R.LogFull(|old(log.lh)|, log.l.size)
      && |old(log.lh)| + (if b in old(log.lh) then 0 else 1) <= log.bc.nbuf
  {
    hide Encode, Recorded, W.CanCommit, J.Accounted, B.CacheOk, BlocksOf, B.Used, R.LogFull;
    RecordedKeys(log.l, e, sb, s, done, v0, log.bc.view);
    RecordedMore(log.l, e, sb, s, done, b, v0, log.bc.view);
    BlocksMore(log.lh, if b in log.lh then log.lh else log.lh + [b], done, b, lh0);
    OpenCard(log);
    J.KeysAgree(log.bc.buf, log.bc.order, log.bc.disk, log.bc.view, log.bc.refs, log.bc.held);
    J.OpenUsedWith(log.l, log.bc.disk, log.bc.view, log.lh, log.bc.refs, b);
    ok := log.Update(log.l.Home(b), Encode(e, sb, s, b));
  }

  lemma RecordingStarts(log: J.Log, e: Encoding, sb: Super, s: Store)
    requires log.Open() && log.bc.held == {}
    ensures Recording(log, e, sb, s, {}, log.lh, log.bc.view)
  {
    hide Recorded, W.CanCommit, J.Accounted, B.CacheOk;
    RecordedNone(log.l, e, sb, s, log.bc.view);
    assert BlocksOf(log.lh) == BlocksOf(log.lh) + {};
  }

  lemma RecordingCard(log: J.Log, e: Encoding, sb: Super, s: Store, done: set<nat>, lh0: seq<nat>, v0: W.Disk)
    requires Recording(log, e, sb, s, done, lh0, v0)
    ensures |BlocksOf(log.lh)| == |log.lh| && BlocksOf(log.lh) == BlocksOf(lh0) + done
  {
    hide Recorded, BlocksOf, W.CanCommit, J.Accounted, B.CacheOk;
    OpenCard(log);
  }

  /** log_write calls for the blocks of todo succeed exactly if they all fit the log and the buffers, but for a
      block that is logged already when the log has just become full. */
  ghost predicate Fate(ok: bool, outstanding: nat, lh: seq<nat>, todo: set<nat>, size: nat, nbuf: nat) {
    var n := |BlocksOf(lh) + todo|;
    && (outstanding >= 1 && Room(n, size, nbuf, !(todo !! BlocksOf(lh))) ==> ok)
    && (ok && todo != {} ==> outstanding >= 1 && Room(n, size, nbuf, false))
  }

  /** The log_write calls of an operation. */
  method Record(log: J.Log, e: Encoding, sb: Super, s: Store, todo: set<nat>) returns (ok: bool)
    requires log.Open() && log.bc.held == {} && Homed(log.l, todo, log.bc.view)
    modifies log`lh, log.bc
    ensures log.bc.disk == old(log.bc.disk)
    ensures ok ==> Recording(log, e, sb, s, todo, old(log.lh), old(log.bc.view))
    ensures Fate(ok, log.outstanding, old(log.lh), todo, log.l.size, log.bc.nbuf)
  {
    hide Recording, BlocksOf, Room, R.LogFull, W.CanCommit, J.Accounted, B.CacheOk, Fate, Homed;
    ghost var lh0, v0, done := log.lh, log.bc.view, {};
    RecordingStarts(log, e, sb, s);
    var left := todo;
    while left != {}
      invariant left <= todo && done == todo - left && log.bc.disk == old(log.bc.disk)
      invariant Recording(log, e, sb, s, done, lh0, v0)
      invariant done != {} ==> log.outstanding >= 1 && Room(|log.lh|, log.l.size, log.bc.nbuf, false)
      decreases |left|
    {
      var b :| b in left;
      HomedAt(log.l, todo, v0, b);
      RecordingCard(log, e, sb, s, done, lh0, v0);
      NextFits(log.lh, b, lh0, todo, left, log.outstanding, log.l.size, log.bc.nbuf);
      ok := RecordOne(log, e, sb, s, b, done, lh0, v0);
      if !ok {
        return;
      }
      Rest(todo, left, done, b);
      done, left := done + {b}, left - {b};
    }
    assert done == todo;
    ok := true;
    RecordingCard(log, e, sb, s, todo, lh0, v0);
    AllFit(log.lh, lh0, todo, log.outstanding, log.l.size, log.bc.nbuf);
  }

  /** The blocks exist, outside the log. */
  ghost predicate Homed(l: W.Layout, todo: set<nat>, v: W.Disk) {
    forall b | b in todo :: l.Home(b) in v && !l.InLog(l.Home(b))
  }

  lemma HomedAt(l: W.Layout, todo: set<nat>, v: W.Disk, b: nat)
    requires Homed(l, todo, v) && b in todo
    ensures l.Home(b) in v && !l.InLog(l.Home(b))
  {
  }

  lemma AllFit(lh: seq<nat>, lh0: seq<nat>, todo: set<nat>, outstanding: nat, size: nat, nbuf: nat)
    requires |BlocksOf(lh)| == |lh| && BlocksOf(lh) == BlocksOf(lh0) + todo
    requires todo != {} ==> outstanding >= 1 && Room(|lh|, size, nbuf, false)
    ensures Fate(true, outstanding, lh0, todo, size, nbuf)
  {
  }

  lemma Rest(todo: set<nat>, left: set<nat>, done: set<nat>, b: nat)
    requires left <= todo && done == todo - left && b in left
    ensures left - {b} <= todo && done + {b} == todo - (left - {b}) && |left - {b}| < |left|
  {
  }

  lemma NextFits(lh: seq<nat>, b: nat, lh0: seq<nat>, todo: set<nat>, left: set<nat>, outstanding: nat, size: nat,
      nbuf: nat)
    requires BlocksOf(lh) == BlocksOf(lh0) + (todo - left) && b in left
    requires left <= todo && |BlocksOf(lh)| == |lh|
    ensures var n := |lh| + if b in lh then 0 else 1;
      if outstanding >= 1 && !R.LogFull(|lh|, size) && n <= nbuf then Room(n, size, nbuf, false)
      else Fate(false, outstanding, lh0, todo, size, nbuf)
  {
    var all := BlocksOf(lh0) + todo;
    CardSubset(BlocksOf(lh) + {b}, all);
    if b in lh {
      assert BlocksOf(lh) + {b} == BlocksOf(lh);
      assert b in todo && b in BlocksOf(lh0);
    }
  }

  lemma RecordedKeys(l: W.Layout, e: Encoding, sb: Super, s: Store, todo: set<nat>, v: W.Disk, v': W.Disk)
    requires Recorded(l, e, sb, s, todo, v, v')
    ensures v'.Keys == v.Keys
  {
  }

  /** Then the cache holds the file system after the operation. */
  lemma RecordedEncodes(l: W.Layout, e: Encoding, sb: Super, s: Store, s': Store, todo: set<nat>, v: W.Disk, v': W.Disk)
    requires Encodes(e, sb, l, v, s) && Covered(sb, s, s', todo) && Recorded(l, e, sb, s', todo, v, v')
    ensures Encodes(e, sb, l, v', s')
  {
    hide Encode, Covered;
    CoveredSize(sb, s, s', todo);
    forall b: nat | b < |s'.blocks| && !l.InLog(l.Home(b)) ensures HoldsBlock(e, sb, l, v', s', b) {
      assert HoldsBlock(e, sb, l, v, s, b);
      if b !in todo {
        UnloggedSame(e, sb, s, s', todo, b);
      }
    }
  }

  /** The file system is what the cache holds. */
  ghost predicate Running(fs: Fs, log: J.Log, e: Encoding, sb: Super)
    reads fs, log, log.bc
  {
    && fs.Valid() && log.Open() && log.bc.held == {} && sb == Super(fs.inodestart, fs.bmapstart)
    && Placed(log.l, sb, fs.nmeta, fs.Now()) && Encodes(e, sb, log.l, log.bc.view, fs.Now())
  }

  lemma InCache(l: W.Layout, e: Encoding, sb: Super, s: Store, todo: set<nat>, v: W.Disk)
    requires Encodes(e, sb, l, v, s) && AtHome(l, |s.blocks|, todo)
    ensures Homed(l, todo, v)
  {
    hide Encode;
    forall b | b in todo ensures l.Home(b) in v {
      assert HoldsBlock(e, sb, l, v, s, b);
    }
  }

  /** One operation between its begin_op and its end_op. It fails in a panic of the log or the cache, with
      the disk untouched. */
  method RunOp(fs: Fs, log: J.Log, e: Encoding, sb: Super, op: Op) returns (ok: bool)
    requires Running(fs, log, e, sb) && Fits(op)
    modifies fs, log`lh, log.bc
    ensures log.bc.disk == old(log.bc.disk)
    ensures ok ==> Running(fs, log, e, sb) && OpStep(sb, op, old(fs.Now()), fs.Now(), fs.logged)
    ensures ok ==> BlocksOf(log.lh) == BlocksOf(old(log.lh)) + fs.logged
    ensures |fs.logged| <= OpEntries(op, |fs.used|) && |fs.used| == |old(fs.used)|
    ensures Fate(ok, log.outstanding, old(log.lh), fs.logged, log.l.size, log.bc.nbuf)
  {
    hide FsOk, Encodes, Placed, OpStep, Recorded, Covered, AtHome, W.LogOk, W.Loggable, J.Accounted, B.CacheOk,
        BlocksOf, Fate, Homed, OpEntries;
    ghost var s, v := fs.Now(), log.bc.view;
    ghost var sb' := Perform(fs, op, log.l);
    OpCovers(sb, op, s, fs.Now(), fs.logged);
    InCache(log.l, e, sb, s, fs.logged, v);
    var now := Store(fs.used, fs.blocks, fs.inodes);
    ok := Record(log, e, sb, now, fs.logged);
    if ok {
      RecordedEncodes(log.l, e, sb, s, now, fs.logged, v, log.bc.view);
    }
  }

  lemma RoomLess(n: nat, m: nat, size: nat, nbuf: nat, twice: bool)
    requires n <= m && Room(m, size, nbuf, true)
    ensures Room(n, size, nbuf, twice)
  {
  }

  /** If there is room for all that an operation may log, it succeeds. */
  lemma FateIsGood(ok: bool, outstanding: nat, lh: seq<nat>, todo: set<nat>, size: nat, nbuf: nat, n: nat)
    requires Fate(ok, outstanding, lh, todo, size, nbuf) && outstanding >= 1 && |BlocksOf(lh)| + |todo| <= n
    requires Room(n, size, nbuf, true)
    ensures ok
  {
    hide Room, BlocksOf;
    CardUnion(BlocksOf(lh), todo);
    RoomLess(|BlocksOf(lh) + todo|, n, size, nbuf, !(todo !! BlocksOf(lh)));
  }

  /** A group grows by one operation. */
  lemma Grown(sb: Super, g: Group, s: Store, op: Op, s': Store, logged: set<nat>)
    requires GroupOk(sb, g, s) && OpStep(sb, op, Outcome(g), s', logged)
    ensures var g' := Group(g.ops + [op], g.states + [s'], g.logs + [logged]);
      GroupOk(sb, g', s) && Outcome(g') == s' && Union(g'.logs) == Union(g.logs) + logged
  {
    hide OpStep;
    var g' := Group(g.ops + [op], g.states + [s'], g.logs + [logged]);
    forall k: nat | k < |g'.ops| ensures StepAt(sb, g', k) {
      if k < |g.ops| {
        assert StepAt(sb, g, k);
      }
    }
    assert g'.logs[..|g.logs|] == g.logs;
  }

  lemma GroupStarts(sb: Super, s: Store)
    ensures GroupOk(sb, Group([], [s], []), s) && Outcome(Group([], [s], [])) == s && Union([]) == {}
    ensures BlocksOf([]) == {}
  {
  }

  /** Nothing is logged, and the file system is what the disk holds. */
  ghost predicate Quiet(fs: Fs, log: J.Log, e: Encoding, sb: Super)
    reads fs, log, log.bc
  {
    Running(fs, log, e, sb) && log.lh == [] && log.outstanding == 0 && Encodes(e, sb, log.l, log.bc.disk, fs.Now())
  }

  /** The operations that have begun, and are in the log but not on disk. */
  ghost predicate Pending(fs: Fs, log: J.Log, e: Encoding, sb: Super, g: Group, s: Store)
    reads fs, log, log.bc
  {
    && Running(fs, log, e, sb) && GroupOk(sb, g, s) && fs.Now() == Outcome(g) && BlocksOf(log.lh) == Union(g.logs)
    && log.outstanding == |g.ops|
  }

  /** What may be in the log when begin_op lets an operation start beside others. */
  const BESIDE: nat := R.LOGSIZE - 2 * R.MAXOPBLOCKS

  /** Whatever else is in the log, there is room for what the operation may log. */
  predicate HasRoom(op: Op, size: nat, l: W.Layout, nbuf: nat) {
    Room(BESIDE + OpEntries(op, size), l.size, nbuf, true)
  }

  lemma BeginRoom(ok: bool, lh: seq<nat>, outstanding: nat, op: Op, size: nat, todo: set<nat>, l: W.Layout, nbuf: nat)
    requires R.CanBegin(|lh|, outstanding, false) && (outstanding == 0 ==> lh == []) && |BlocksOf(lh)| == |lh|
    requires Fate(ok, outstanding + 1, lh, todo, l.size, nbuf) && |todo| <= OpEntries(op, size)
    ensures HasRoom(op, size, l, nbuf) ==> ok
  {
    hide Fate, Room, BlocksOf, OpEntries;
    if HasRoom(op, size, l, nbuf) {
      FateIsGood(ok, outstanding + 1, lh, todo, l.size, nbuf, BESIDE + OpEntries(op, size));
    }
  }

  /** The operations of a group, each after a begin_op that lets it start; the group ends exactly where one has
      to wait. It fails only at an operation that is too large for the log or the buffers. */
  method RunGroup(fs: Fs, log: J.Log, e: Encoding, sb: Super, ops: seq<Op>) returns (ok: bool, ghost g: Group)
    requires Quiet(fs, log, e, sb) && forall k | 0 <= k < |ops| :: Fits(ops[k])
    modifies fs, log, log.bc
    ensures log.bc.disk == old(log.bc.disk)
    ensures ok ==> Pending(fs, log, e, sb, g, old(fs.Now())) && g.ops <= ops
    ensures ok && |g.ops| < |ops| ==> !R.CanBegin(|log.lh|, |g.ops|, false)
    ensures |fs.used| == |old(fs.used)|
    ensures (forall k | 0 <= k < |ops| :: HasRoom(ops[k], |fs.used|, log.l, log.bc.nbuf)) ==> ok
  {
    hide GroupOk, Outcome, OpStep, Union, BlocksOf, FsOk, Encodes, Placed, J.Accounted, B.CacheOk, W.CanCommit, Fate,
      HasRoom;
    ghost var s := fs.Now();
    g := Group([], [s], []);
    GroupStarts(sb, s);
    ok := true;
    var k, more := 0, true;
    while k < |ops| && more
      invariant 0 <= k <= |ops| && ok && g.ops == ops[..k] && Pending(fs, log, e, sb, g, s)
      invariant log.bc.disk == old(log.bc.disk) && |fs.used| == |old(fs.used)| && (k == 0 ==> log.lh == [])
      invariant !more ==> k < |ops| && !R.CanBegin(|log.lh|, k, false)
      decreases |ops| - k, more
    {
      OpenCard(log);
      more := log.BeginOp();
      if more {
        ghost var lh0 := log.lh;
        ok := RunOp(fs, log, e, sb, ops[k]);
        BeginRoom(ok, lh0, k, ops[k], |fs.used|, fs.logged, log.l, log.bc.nbuf);
        if !ok {
          return;
        }
        Grown(sb, g, s, ops[k], fs.Now(), fs.logged);
        g := Group(g.ops + [ops[k]], g.states + [fs.Now()], g.logs + [fs.logged]);
        k := k + 1;
      }
    }
  }

  // Commit, crash and boot.

  /** The whole-run theorem applies to what RunGroup leaves: for every crash point in its commit, and any
      crashes in recovery, the disk then holds the group's outcome or what it held before. */
  lemma CrashAnywhere(fs: Fs, log: J.Log, e: Encoding, sb: Super, g: Group, s: Store, r: W.Round)
    requires Pending(fs, log, e, sb, g, s) && Encodes(e, sb, log.l, log.bc.disk, s) && Consistent(fs.nmeta, s)
    requires r.view == log.bc.view && r.lh == log.lh
    requires r.Crash? ==>
      W.CanCommit(log.l, log.bc.disk, r.view, r.lh) && r.at <= |W.CommitOf(log.l, log.bc.disk, r.view, r.lh)|
    ensures W.RoundOk(log.l, log.bc.disk, r) && Commits(e, sb, log.l, r, g, s)
    ensures Encodes(e, sb, log.l, W.AfterRound(log.l, log.bc.disk, r), if W.Durable(r) then Outcome(g) else s)
  {
    hide FsOk, Encodes, Placed, J.Accounted, B.CacheOk, W.CanCommit, W.AfterRound, Consistent, StepAt, BlocksOf, Union;
    GroupIsAtomic(e, sb, fs.nmeta, log.l, log.bc.disk, r, g, s);
  }

  lemma OutsideEncodes(e: Encoding, sb: Super, l: W.Layout, v: W.Disk, v': W.Disk, s: Store)
    requires Encodes(e, sb, l, v, s) && J.SameOutside(l, v, v')
    ensures Encodes(e, sb, l, v', s)
  {
    hide Encode;
    forall b: nat | b < |s.blocks| && !l.InLog(l.Home(b)) ensures HoldsBlock(e, sb, l, v', s, b) {
      assert HoldsBlock(e, sb, l, v, s, b);
    }
  }

  /** With nothing held and nothing logged, the cache agrees with the disk. */
  lemma CleanCache(log: J.Log)
    requires log.Open() && log.bc.held == {} && log.lh == []
    ensures log.bc.disk == log.bc.view
  {
    hide W.CanCommit, B.Ring, B.Permutation, B.BufOk, B.CachedAt, B.Cached;
    forall id | id in log.bc.disk ensures log.bc.view[id] == log.bc.disk[id] {
      assert log.bc.refs[id] == 0;
    }
  }

  lemma NoBlocks(lh: seq<nat>)
    ensures BlocksOf(lh) == {} ==> lh == []
  {
    if lh != [] {
      assert lh[0] in BlocksOf(lh);
    }
  }

  /** Where the writes of a commit stopped, recovery gives the outcome of the group or the old state. */
  lemma StoppedCommit(e: Encoding, sb: Super, nmeta: nat, l: W.Layout, d0: W.Disk, w0: seq<W.Write>, v0: W.Disk,
      lh: seq<nat>, k: nat,
      d: W.Disk, w: seq<W.Write>, g: Group, s: Store)
    requires J.Committing(l, d0, w0, v0, lh, k, d, w) && GroupOk(sb, g, s) && BlocksOf(lh) == Union(g.logs)
    requires Encodes(e, sb, l, d0, s) && Encodes(e, sb, l, v0, Outcome(g)) && Consistent(nmeta, s)
    ensures W.LogOk(l, d) && Encodes(e, sb, l, W.Recovered(l, d), if k > |lh| then Outcome(g) else s)
  {
    hide Encodes, W.LogOk, W.Recovered, W.SameHome, W.Loggable, J.Progress, Covered, StepAt, Consistent, BlocksOf,
        Union;
    J.CommitSurvivesCrash(l, d0, w0, v0, lh, k, d, w);
    GroupKeeps(sb, nmeta, g, s, |g.ops|);
    assert g.logs[..|g.ops|] == g.logs;
    if k > |lh| {
      AfterEncodes(e, sb, l, d0, v0, lh, s, Outcome(g));
      SameHomeEncodes(e, sb, l, W.After(l, d0, v0, lh), W.Recovered(l, d), Outcome(g));
    } else {
      SameHomeEncodes(e, sb, l, d0, W.Recovered(l, d), s);
    }
  }

  lemma LogIsSmall(log: J.Log)
    requires log.Open()
    ensures |log.lh| < log.l.size
  {
  }

  /** The end_op calls of a group, the last of which commits. If the cache panics in the middle, the disk is
      one that recovery accepts. */
  method CommitGroup(fs: Fs, log: J.Log, e: Encoding, sb: Super, ghost g: Group, ghost s: Store) returns (ok: bool)
    requires Pending(fs, log, e, sb, g, s) && Encodes(e, sb, log.l, log.bc.disk, s) && Consistent(fs.nmeta, s)
    modifies log, log.bc
    ensures ok ==> Quiet(fs, log, e, sb)
    ensures !ok ==> W.LogOk(log.l, log.bc.disk)
    ensures !ok ==> exists s': Store ::
      s' in {s, Outcome(g)} && Encodes(e, sb, log.l, W.Recovered(log.l, log.bc.disk), s')
    ensures ok <==> old(log.lh) == [] || |old(log.lh)| < log.bc.nbuf
    ensures log.l.size <= log.bc.nbuf ==> ok
  {
    hide GroupOk, Outcome, OpStep, Union, BlocksOf, FsOk, Encodes, Placed, J.Accounted, B.CacheOk, W.CanCommit, W.LogOk,
      W.Recovered, J.SameOutside, J.Committing, Consistent;
    if log.outstanding == 0 {
      EmptyGroup(sb, g, s, log.lh);
      return true;
    }
    while log.outstanding > 1
      invariant Running(fs, log, e, sb) && BlocksOf(log.lh) == Union(g.logs) && log.outstanding >= 1
      invariant log.bc.disk == old(log.bc.disk) && log.lh == old(log.lh)
    {
      ghost var more, k := log.EndOp();
    }
    ghost var d0, w0, v0, lh := log.bc.disk, log.bc.writes, log.bc.view, log.lh;
    LogIsSmall(log);
    ghost var k;
    ok, k := log.EndOp();
    StoppedCommit(e, sb, fs.nmeta, log.l, d0, w0, v0, lh, k, log.bc.disk, log.bc.writes, g, s);
    if ok {
      OutsideEncodes(e, sb, log.l, v0, log.bc.view, fs.Now());
      CleanCache(log);
    }
  }

  lemma EmptyGroup(sb: Super, g: Group, s: Store, lh: seq<nat>)
    requires GroupOk(sb, g, s) && |g.ops| == 0 && BlocksOf(lh) == Union(g.logs)
    ensures Outcome(g) == s && lh == []
  {
    NoBlocks(lh);
  }

  /** Two groups, one after the other. */
  ghost function Joined(g: Group, h: Group): Group
    requires |h.states| > 0
  {
    Group(g.ops + h.ops, g.states + h.states[1..], g.logs + h.logs)
  }

  lemma JoinedOk(sb: Super, g: Group, h: Group, s: Store)
    requires GroupOk(sb, g, s) && GroupOk(sb, h, Outcome(g))
    ensures GroupOk(sb, Joined(g, h), s) && Outcome(Joined(g, h)) == Outcome(h)
  {
    hide OpStep;
    var j := Joined(g, h);
    forall k: nat | k < |j.ops| ensures StepAt(sb, j, k) {
      if k < |g.ops| {
        assert StepAt(sb, g, k);
      } else {
        assert StepAt(sb, h, k - |g.ops|);
      }
    }
  }

  lemma Progresses(fs: Fs, log: J.Log, e: Encoding, sb: Super, g: Group, s: Store)
    requires Pending(fs, log, e, sb, g, s) && |g.ops| == 0
    ensures R.CanBegin(|log.lh|, 0, false)
  {
    hide FsOk, Encodes, Placed, J.Accounted, B.CacheOk, W.CanCommit, GroupOk;
    EmptyGroup(sb, g, s, log.lh);
  }

  /** Any number of operations, in as many groups as begin_op makes of them, each group committed before the next.
      With as many buffers as the log has blocks and room for each operation nothing panics: all of them are done,
      in order, and the disk holds the file system after the last. */
  method Serve(fs: Fs, log: J.Log, e: Encoding, sb: Super, ops: seq<Op>) returns (ghost all: Group)
    requires Quiet(fs, log, e, sb) && log.l.size <= log.bc.nbuf
    requires forall k | 0 <= k < |ops| :: Fits(ops[k]) && HasRoom(ops[k], |fs.used|, log.l, log.bc.nbuf)
    modifies fs, log, log.bc
    ensures Quiet(fs, log, e, sb)
    ensures GroupOk(sb, all, old(fs.Now())) && all.ops == ops && Outcome(all) == fs.Now()
  {
    hide GroupOk, Outcome, OpStep, Union, BlocksOf, FsOk, Encodes, Placed, J.Accounted, B.CacheOk, W.CanCommit, HasRoom,
      Joined;
    ghost var s0 := fs.Now();
    all := Group([], [s0], []);
    GroupStarts(sb, s0);
    var k := 0;
    while k < |ops|
      invariant 0 <= k <= |ops| && Quiet(fs, log, e, sb) && |fs.used| == |old(fs.used)|
      invariant GroupOk(sb, all, s0) && all.ops == ops[..k] && |all.states| > 0 && Outcome(all) == fs.Now()
    {
      ghost var s := fs.Now();
      var ok, g := RunGroup(fs, log, e, sb, ops[k..]);
      assert |g.ops| > 0 by {
        if |g.ops| == 0 {
          Progresses(fs, log, e, sb, g, s);
        }
      }
      JoinedOps(sb, all, g, s0, ops, k);
      all := Joined(all, g);
      k := k + log.outstanding;
      ok := CommitGroup(fs, log, e, sb, g, s);
    }
    assert ops[..k] == ops;
  }

  lemma JoinedOps(sb: Super, g: Group, h: Group, s: Store, ops: seq<Op>, k: nat)
    requires GroupOk(sb, g, s) && GroupOk(sb, h, Outcome(g)) && k <= |ops| && g.ops == ops[..k] && h.ops <= ops[k..]
    ensures |h.states| > 0 && GroupOk(sb, Joined(g, h), s) && |Joined(g, h).states| > 0
    ensures Outcome(Joined(g, h)) == Outcome(h) && Joined(g, h).ops == ops[..k + |h.ops|]
  {
    JoinedOk(sb, g, h, s);
    hide GroupOk;
    assert ops[..k] + ops[k..][..|h.ops|] == ops[..k + |h.ops|];
  }

  /** With the kernel's 30 buffers and 30 log blocks there is room exactly for operations that log at most 18
      blocks, more than twice what a chunk of filewrite needs. */
  lemma KernelRoom(op: Op, size: nat, l: W.Layout)
    requires l.size == R.LOGSIZE
    ensures HasRoom(op, size, l, R.LOGSIZE) <==> OpEntries(op, size) <= 18
    ensures size <= BPB && (op.Write? ==> |op.src| <= F.CHUNK) ==> HasRoom(op, size, l, R.LOGSIZE)
  {
    if op.Write? && |op.src| <= F.CHUNK {
      F.ChunkSpans(op.off, |op.src|);
    }
  }

  /** A boot: an empty cache over the disk, recovery, and the file system that the recovered disk holds. */
  method Boot(disk: W.Disk, l: W.Layout, nbuf: nat, e: Encoding, sb: Super, nmeta: nat, s: Store, ghost owner: Owners)
    returns (ok: bool, fs: Fs, log: J.Log)
    requires W.LogOk(l, disk) && (forall id | id in disk :: id.0 != 0) && FsOk(nmeta, s.used, s.blocks, s.inodes, owner)
    requires Placed(l, sb, nmeta, s) && Encodes(e, sb, l, W.Recovered(l, disk), s)
    ensures ok ==> Quiet(fs, log, e, sb) && fs.Now() == s && log.l == l && fs.nmeta == nmeta
    ensures ok ==> fresh(fs) && fresh(log) && fresh(log.bc) && log.bc.disk == W.Recovered(l, disk)
    ensures ok <==> (if W.Targets(disk[l.Header()]) == [] then 1 else 2) <= nbuf
    ensures log.bc.nbuf == nbuf
  {
    hide FsOk, Encodes, Placed, J.Accounted, B.CacheOk, W.CanCommit, W.LogOk, W.Recovered, J.Recovering;
    var cache := new B.Cache(nbuf, disk);
    log := new J.Log(l, cache);
    fs := new Fs(nmeta, sb.bmapstart, sb.inodestart, s.used, s.blocks, s.inodes, owner);
    ghost var k;
    ok, k := log.Recover();
    if ok {
      CleanCache(log);
    }
  }

  /** The disk that mkfs writes: the encoded blocks, and a log area of zeros. */
  function DiskOf(e: Encoding, sb: Super, l: W.Layout, s: Store): W.Disk {
    map b | 0 <= b < |s.blocks| ::
      (l.dev, b) := if l.InLog(l.Home(b)) then Repeat(0, NINDIRECT) else Encode(e, sb, s, b)
  }

  lemma DiskOfOk(e: Encoding, sb: Super, l: W.Layout, nmeta: nat, s: Store)
    requires Placed(l, sb, nmeta, s) && 1 <= l.size <= NINDIRECT
    ensures var d := DiskOf(e, sb, l, s); W.LogOk(l, d) && W.Targets(d[l.Header()]) == [] && Encodes(e, sb, l, d, s)
  {
    hide Encode;
    var d := DiskOf(e, sb, l, s);
    forall b: nat | b < |s.blocks| && !l.InLog(l.Home(b)) ensures HoldsBlock(e, sb, l, d, s, b) {
      assert (l.dev, b) in d;
    }
    assert l.start + l.size <= |s.blocks|;
    forall i: nat | i + 1 < l.size ensures l.Log(i) in d {
    }
    assert l.Header() in d && d[l.Header()] == Repeat(0, NINDIRECT);
  }

  /** The file system of an image, with the bitmap that balloc writes. */
  ghost function ImageStore(image: M.Image): Store
    reads image
  {
    Store(M.First(image.freeblock, image.size), image.blocks, image.inodes)
  }

  /** An image that mkfs has finished: its file system is consistent and its disk holds it. */
  method Format(image: M.Image, e: Encoding, sb: Super, l: W.Layout) returns (ok: bool, s: Store, disk: W.Disk)
    requires image.Ready() && image.size <= BPB && 1 <= l.size <= NINDIRECT
    requires Placed(l, sb, image.nmeta, ImageStore(image))
    ensures ok <==> image.freeblock < BPB
    ensures ok ==> s == ImageStore(image) && disk == DiskOf(e, sb, l, s)
    ensures ok ==> Consistent(image.nmeta, s) && W.LogOk(l, disk) && Encodes(e, sb, l, disk, s)
  {
    hide FsOk, Encodes, Placed, W.LogOk, Encode;
    var bits;
    ok, bits := image.Balloc();
    s, disk := Store([], [], map[]), map[];
    if ok {
      s := Store(bits[..image.size], image.blocks, image.inodes);
      assert FsOk(image.nmeta, s.used, s.blocks, s.inodes, image.owner);
      FirstPart(image.freeblock, image.size);
      DiskOfOk(e, sb, l, image.nmeta, s);
      disk := DiskOf(e, sb, l, s);
    }
  }

  lemma FirstPart(n: nat, size: nat)
    requires size <= BPB
    ensures M.First(n, BPB)[..size] == M.First(n, size)
  {
  }

  /** From the image that mkfs makes, every run of file-system operations with crashes anywhere leaves a
      consistent file system on the disk. */
  lemma RunFromMkfs(image: M.Image, e: Encoding, sb: Super, l: W.Layout, s: Store, rounds: seq<W.Round>,
      groups: seq<Group>)
    requires image.Ready() && s == ImageStore(image) && Placed(l, sb, image.nmeta, s) && 1 <= l.size <= NINDIRECT
    requires FsRun(e, sb, l, DiskOf(e, sb, l, s), s, rounds, groups)
    ensures W.RunFrom(l, DiskOf(e, sb, l, s), rounds) && |groups| == |rounds|
    ensures forall k | 0 <= k < |groups| :: |groups[k].states| > 0
    ensures Encodes(e, sb, l, W.RunDisk(l, DiskOf(e, sb, l, s), rounds), Survivor(s, rounds, groups))
    ensures Consistent(image.nmeta, Survivor(s, rounds, groups))
  {
    hide FsOk, Encodes, Placed, DiskOf, FsRun, W.LogOk;
    DiskOfOk(e, sb, l, image.nmeta, s);
    RunIsConsistent(e, sb, image.nmeta, l, DiskOf(e, sb, l, s), s, rounds, groups);
  }

  /** The super block of mkfs. */
  const SUPER := Super(32, 83)

  function LogArea(dev: nat): W.Layout {
    W.Layout(dev, 2, 30)
  }

  /** The inode blocks of mkfs hold 204 inodes, the first of them unused; mkfs does not look. */
  lemma InodesFit(dev: nat, n: nat, s: Store)
    requires |s.used| == |s.blocks| == M.FSSIZE && forall i :: i in s.inodes <==> M.ROOTINO <= i <= M.ROOTINO + n
    ensures Placed(LogArea(dev), SUPER, M.NMETA, s) <==> n <= 202
  {
    assert M.ROOTINO + n in s.inodes;
  }

  /** The whole of mkfs: the files of the command line are on the disk, in a consistent file system with an
      empty log, for which RunFromMkfs holds. */
  method MakeDisk(dev: nat, names: seq<seq<nat>>, contents: seq<seq<nat>>, e: Encoding)
    returns (ok: bool, image: M.Image, s: Store, disk: W.Disk)
    requires |names| == |contents| <= 202
    ensures fresh(image) && image.nmeta == M.NMETA
    ensures !ok ==> M.TooLarge(names, contents) || M.FSSIZE <= M.NMETA + 2 * M.Appends(contents, |names|)
    ensures ok ==> M.Made(image, names, contents) && image.Ready() && s == ImageStore(image)
    ensures ok ==> Placed(LogArea(dev), SUPER, M.NMETA, s) && disk == DiskOf(e, SUPER, LogArea(dev), s)
    ensures ok ==> Consistent(M.NMETA, s) && W.LogOk(LogArea(dev), disk) && Encodes(e, SUPER, LogArea(dev), disk, s)
    ensures ok ==> (M.Solid(s.blocks, s.inodes) <==> (|names| + 2) * M.DIRENT % BSIZE != 0)
  {
    hide FsOk, Encodes, Placed, W.LogOk, M.Solid, M.TooLarge;
    s, disk := Store([], [], map[]), map[];
    ok, image := M.Make(M.NMETA, M.FSSIZE, names, contents);
    if ok {
      InodesFit(dev, |names|, ImageStore(image));
      ok, s, disk := Format(image, e, SUPER, LogArea(dev));
    }
  }

  lemma EmptyLog(e: Encoding, sb: Super, l: W.Layout, nmeta: nat, s: Store)
    requires Placed(l, sb, nmeta, s) && 1 <= l.size <= NINDIRECT
    ensures var d := DiskOf(e, sb, l, s);
      W.LogOk(l, d) && W.Targets(d[l.Header()]) == [] && Encodes(e, sb, l, W.Recovered(l, d), s)
  {
    hide Encodes, DiskOf, Placed;
    DiskOfOk(e, sb, l, nmeta, s);
    var d := DiskOf(e, sb, l, s);
    W.RecoveredIs(l, d);
    SameHomeEncodes(e, sb, l, d, W.Recovered(l, d), s);
  }

  lemma MadeFile(image: M.Image, names: seq<seq<nat>>, contents: seq<seq<nat>>, k: nat, dst: seq<nat>)
    requires |names| == |contents| && M.Made(image, names, contents) && k < |names|
    ensures var i := M.ROOTINO + 1 + k;
      && i in image.inodes && image.inodes[i].size == |contents[k]|
      && NoHole(image.blocks, image.inodes, i, 0, |contents[k]|)
      && (Shows(image.blocks, image.inodes, i, 0, dst) && |dst| == |contents[k]| ==> dst == contents[k])
  {
    hide HasBlock, FileByte;
    var i := M.ROOTINO + 1 + k;
    var files := M.Tree(names, contents, |names|);
    assert i in files && files[i] == contents[k];
    assert M.ShowsAll(image.blocks, image.inodes, i, contents[k]);
  }

  /** On a running file system that is the one of an image, dirlookup and readi give the bytes of file k. */
  method ReadNamed(fs: Fs, ghost image: M.Image, names: seq<seq<nat>>, contents: seq<seq<nat>>, k: nat)
    returns (bytes: seq<nat>)
    requires |names| == |contents| <= 202 && k < |names| && M.Made(image, names, contents)
    requires D.GoodNames(names) && forall j | 0 <= j < k :: D.Cut(names[j]) != D.Cut(names[k])
    requires fs.Valid() && fs.blocks == image.blocks && fs.inodes == image.inodes
    modifies fs
    ensures bytes == contents[k] && unchanged(fs)
  {
    hide FsOk, M.Made, D.Near, D.FirstWith, NoHole, Shows, Contents, D.Inum, D.EntryAt, D.Has, D.Cut, SameFiles, Stays,
      D.GoodNames;
    ghost var blocks, inodes := fs.blocks, fs.inodes;
    D.MadeFinds(image, names, contents, k);
    D.NearIs(blocks, inodes, M.ROOTINO, names[k], k + 2, 0);
    D.NameIsGood(names, k);
    var found, inum, at := D.Dirlookup(fs, M.ROOTINO, names[k]);
    D.NearIs(blocks, inodes, M.ROOTINO, names[k], k + 2, at);
    MadeFile(image, names, contents, k, []);
    SizeBound(fs.nmeta, fs.used, fs.blocks, fs.inodes, fs.owner, inum);
    var r;
    r, bytes := fs.Readi(inum, 0, |contents[k]|, |contents[k]|);
    MadeFile(image, names, contents, k, bytes);
  }

  /** From the command line of mkfs to a read in the running kernel: the disk is made, the machine boots from it,
      the name of file k is looked up in the root directory, and the inode that it names is read to its end. These are
      the bytes that mkfs was given. */
  method ReadBack(dev: nat, nbuf: nat, names: seq<seq<nat>>, contents: seq<seq<nat>>, e: Encoding, k: nat)
    returns (ok: bool, bytes: seq<nat>)
    requires |names| == |contents| <= 202 && k < |names| && dev != 0 && nbuf >= 1
    requires D.GoodNames(names) && forall j | 0 <= j < k :: D.Cut(names[j]) != D.Cut(names[k])
    ensures !ok ==> M.TooLarge(names, contents) || M.FSSIZE <= M.NMETA + 2 * M.Appends(contents, |names|)
    ensures ok ==> bytes == contents[k]
  {
    hide FsOk, Encodes, Placed, W.LogOk, W.Recovered, M.Solid, M.TooLarge, M.Made, DiskOf, D.GoodNames, D.Cut;
    bytes := [];
    var image, s, disk;
    ok, image, s, disk := MakeDisk(dev, names, contents, e);
    if ok {
      EmptyLog(e, SUPER, LogArea(dev), M.NMETA, s);
      DiskDev(e, SUPER, LogArea(dev), s);
      var up, fs, log := Boot(disk, LogArea(dev), nbuf, e, SUPER, M.NMETA, s, image.owner);
      bytes := ReadNamed(fs, image, names, contents, k);
    }
  }

  lemma DiskDev(e: Encoding, sb: Super, l: W.Layout, s: Store)
    ensures forall id | id in DiskOf(e, sb, l, s) :: id.0 == l.dev
  {
    hide Encode;
  }
}
