/**
 Block allocation and file contents of kernel/fs.c: balloc, bfree, bmap, itrunc, readi and writei.

 The state is what the kernel sees through the buffer cache: the bitmap, the blocks, and the inodes.
 A block is a cleared one, a data block of BSIZE bytes, or an indirect block of NINDIRECT block
 numbers. Block number 0 means "no block". The ghost map `owner` says which inode refers to each
 allocated block, and where; being a map, it says that each block is referred to once.
 */
module FileSystem {
  import opened Common

  const BSIZE: nat := 1024
  const NDIRECT: nat := 60
  const NINDIRECT: nat := 256
  const MAXFILE: nat := NDIRECT + NINDIRECT
  /** Bits in a bitmap block. */
  const BPB: nat := 8192

  datatype Block = Zero | Bytes(bytes: seq<nat>) | Words(words: seq<nat>)

  datatype Inode = Inode(addrs: seq<nat>, size: nat)

  /** Block bn of the file of an inode, or its indirect block. */
  datatype Ref = Data(inum: nat, bn: nat) | Indirect(inum: nat)

  type Inodes = map<nat, Inode>
  type Owners = map<nat, Ref>

  /** Word k of an indirect block. */
  function WordAt(blocks: seq<Block>, b: nat, k: nat): nat {
    if b < |blocks| && blocks[b].Words? && k < |blocks[b].words| then blocks[b].words[k] else 0
  }

  /** Byte k of a data block. */
  function ByteAt(blocks: seq<Block>, b: nat, k: nat): nat {
    if b < |blocks| && blocks[b].Bytes? && k < |blocks[b].bytes| then blocks[b].bytes[k] else 0
  }

  /** The number of block bn of an inode's file, 0 if it has none. */
  function BlockOf(blocks: seq<Block>, ip: Inode, bn: nat): nat {
    if |ip.addrs| != NDIRECT + 1 then 0
    else if bn < NDIRECT then ip.addrs[bn]
    else if ip.addrs[NDIRECT] == 0 then 0
    else WordAt(blocks, ip.addrs[NDIRECT], bn - NDIRECT)
  }

  /** The block that a reference names, 0 if none. */
  function At(blocks: seq<Block>, inodes: Inodes, r: Ref): nat {
    if r.inum !in inodes then 0 else
    match r
    case Data(i, bn) => if bn < MAXFILE then BlockOf(blocks, inodes[i], bn) else 0
    case Indirect(i) => if |inodes[i].addrs| == NDIRECT + 1 then inodes[i].addrs[NDIRECT] else 0
  }

  /** The byte at an offset of a file; a hole shows zeros. */
  function FileByte(blocks: seq<Block>, inodes: Inodes, i: nat, off: nat): nat {
    var b := At(blocks, inodes, Data(i, off / BSIZE));
    if b == 0 then 0 else ByteAt(blocks, b, off % BSIZE)
  }

  predicate Owned(owner: Owners, b: nat, r: Ref) {
    b in owner && owner[b] == r
  }

  predicate KindOk(block: Block, r: Ref) {
    match r
    case Data(_, _) => block.Zero? || (block.Bytes? && |block.bytes| == BSIZE)
    case Indirect(_) => block.Zero? || (block.Words? && |block.words| == NINDIRECT)
  }

  /** References and their records agree, both ways. */
  ghost predicate RefsOk(blocks: seq<Block>, inodes: Inodes, owner: Owners) {
    && (forall r: Ref | At(blocks, inodes, r) != 0 :: Owned(owner, At(blocks, inodes, r), r))
    && (forall b | b in owner :: b < |blocks| && At(blocks, inodes, owner[b]) == b && KindOk(blocks[b], owner[b]))
  }

  /** The set bits of the bitmap are exactly the metadata blocks and the blocks referred to. */
  ghost predicate BitmapOk(nmeta: nat, used: seq<bool>, owner: Owners) {
    && 0 < nmeta <= |used|
    && (forall b: nat | b < nmeta :: used[b] && b !in owner)
    && (forall b: nat | nmeta <= b < |used| :: used[b] <==> b in owner)
    && (forall b | b in owner :: b < |used|)
  }

  ghost predicate InodesOk(inodes: Inodes) {
    forall i | i in inodes :: |inodes[i].addrs| == NDIRECT + 1 && inodes[i].size <= MAXFILE * BSIZE
  }

  ghost predicate FsOk(nmeta: nat, used: seq<bool>, blocks: seq<Block>, inodes: Inodes, owner: Owners) {
    |blocks| == |used| && BitmapOk(nmeta, used, owner) && InodesOk(inodes) && RefsOk(blocks, inodes, owner)
  }

  /** The image that mkfs starts from: metadata blocks only, and inodes without blocks. */
  lemma EmptyOk(nmeta: nat, used: seq<bool>, blocks: seq<Block>, inodes: Inodes)
    requires 0 < nmeta <= |used| == |blocks| && forall b | 0 <= b < |used| :: used[b] == (b < nmeta)
    requires forall i | i in inodes ::
      |inodes[i].addrs| == NDIRECT + 1 && inodes[i].size == 0 && forall k | 0 <= k <= NDIRECT :: inodes[i].addrs[k] == 0
    ensures FsOk(nmeta, used, blocks, inodes, map[])
  {
  }

  /** Only reference r names something else: b. */
  ghost predicate Rerefers(blocks: seq<Block>, inodes: Inodes, blocks': seq<Block>, inodes': Inodes, r: Ref, b: nat) {
    forall q: Ref :: At(blocks', inodes', q) == if q == r then b else At(blocks, inodes, q)
  }

  /** A free block, cleared, becomes the block of a reference that had none. */
  lemma AddRef(nmeta: nat, used: seq<bool>, blocks: seq<Block>, inodes: Inodes, owner: Owners, blocks': seq<Block>,
      inodes': Inodes, r: Ref, b: nat)
    requires FsOk(nmeta, used, blocks, inodes, owner) && InodesOk(inodes') && |blocks'| == |blocks|
    requires nmeta <= b < |used| && !used[b]
    requires At(blocks, inodes, r) == 0 && Rerefers(blocks, inodes, blocks', inodes', r, b) && blocks'[b] == Zero
    requires forall c | c in owner :: c < |blocks| && KindOk(blocks'[c], owner[c])
    ensures FsOk(nmeta, used[b := true], blocks', inodes', owner[b := r])
  {
    hide At;
  }

  /** The block of a reference is freed. */
  lemma DropRef(nmeta: nat, used: seq<bool>, blocks: seq<Block>, inodes: Inodes, owner: Owners, blocks': seq<Block>,
      inodes': Inodes, r: Ref)
    requires FsOk(nmeta, used, blocks, inodes, owner) && InodesOk(inodes') && |blocks'| == |blocks|
    requires At(blocks, inodes, r) != 0 && Rerefers(blocks, inodes, blocks', inodes', r, 0)
    requires forall c | c in owner :: c < |blocks| && KindOk(blocks'[c], owner[c])
    ensures nmeta <= At(blocks, inodes, r) < |used| && used[At(blocks, inodes, r)]
    ensures FsOk(nmeta, used[At(blocks, inodes, r) := false], blocks', inodes', owner - {At(blocks, inodes, r)})
  {
    hide At;
    assert Owned(owner, At(blocks, inodes, r), r);
  }

  // The three places where a reference is stored.

  function SetAddr(inodes: Inodes, i: nat, k: nat, b: nat): Inodes
    requires i in inodes && k < |inodes[i].addrs|
  {
    inodes[i := inodes[i].(addrs := inodes[i].addrs[k := b])]
  }

  lemma DirectRefers(blocks: seq<Block>, inodes: Inodes, i: nat, bn: nat, b: nat)
    requires InodesOk(inodes) && i in inodes && bn < NDIRECT
    ensures InodesOk(SetAddr(inodes, i, bn, b))
    ensures Rerefers(blocks, inodes, blocks, SetAddr(inodes, i, bn, b), Data(i, bn), b)
  {
  }

  /** The indirect block may come and go while it lists nothing. */
  lemma IndirectRefers(blocks: seq<Block>, inodes: Inodes, i: nat, b: nat)
    requires InodesOk(inodes) && i in inodes
    requires b == 0 || forall k: nat | k < NINDIRECT :: WordAt(blocks, b, k) == 0
    requires inodes[i].addrs[NDIRECT] == 0 || forall k: nat | k < NINDIRECT ::
      WordAt(blocks, inodes[i].addrs[NDIRECT], k) == 0
    ensures InodesOk(SetAddr(inodes, i, NDIRECT, b))
    ensures Rerefers(blocks, inodes, blocks, SetAddr(inodes, i, NDIRECT, b), Indirect(i), b)
  {
  }

  function SetWord(blocks: seq<Block>, t: nat, k: nat, b: nat): seq<Block>
    requires t < |blocks| && (blocks[t].Zero? || (blocks[t].Words? && |blocks[t].words| == NINDIRECT)) && k < NINDIRECT
  {
    blocks[t := Words((if blocks[t].Zero? then Repeat(0, NINDIRECT) else blocks[t].words)[k := b])]
  }

  lemma ListedRefers(blocks: seq<Block>, inodes: Inodes, owner: Owners, i: nat, k: nat, b: nat)
    requires InodesOk(inodes) && RefsOk(blocks, inodes, owner) && i in inodes && inodes[i].addrs[NDIRECT] != 0
    requires k < NINDIRECT
    ensures var t := inodes[i].addrs[NDIRECT];
      && t < |blocks| && KindOk(blocks[t], Indirect(i))
      && Rerefers(blocks, inodes, SetWord(blocks, t, k, b), inodes, Data(i, NDIRECT + k), b)
      && forall c | c in owner :: c < |blocks| && KindOk(SetWord(blocks, t, k, b)[c], owner[c])
  {
    var t := inodes[i].addrs[NDIRECT];
    assert At(blocks, inodes, Indirect(i)) == t;
    forall q: Ref
      ensures At(SetWord(blocks, t, k, b), inodes, q) == if q == Data(i, NDIRECT + k) then b else At(blocks, inodes, q)
    {
      assert At(blocks, inodes, Indirect(q.inum)) != 0 ==>
        Owned(owner, At(blocks, inodes, Indirect(q.inum)), Indirect(q.inum));
    }
  }

  /** Every file shows the same bytes and has the same size. */
  ghost predicate SameFiles(blocks: seq<Block>, inodes: Inodes, blocks': seq<Block>, inodes': Inodes) {
    && (forall i :: i in inodes' <==> i in inodes)
    && (forall i | i in inodes :: i in inodes' && inodes'[i].size == inodes[i].size)
    && (forall i: nat, off: nat :: FileByte(blocks', inodes', i, off) == FileByte(blocks, inodes, i, off))
  }

  /** References that exist stay. */
  ghost predicate Stays(blocks: seq<Block>, inodes: Inodes, blocks': seq<Block>, inodes': Inodes) {
    forall r: Ref | At(blocks, inodes, r) != 0 :: At(blocks', inodes', r) == At(blocks, inodes, r)
  }

  lemma StaysAt(blocks: seq<Block>, inodes: Inodes, blocks': seq<Block>, inodes': Inodes, r: Ref)
    requires Stays(blocks, inodes, blocks', inodes')
    ensures At(blocks, inodes, r) != 0 ==> At(blocks', inodes', r) == At(blocks, inodes, r)
  {
  }

  lemma OwnsAt(nmeta: nat, used: seq<bool>, blocks: seq<Block>, inodes: Inodes, owner: Owners, r: Ref)
    requires FsOk(nmeta, used, blocks, inodes, owner) && At(blocks, inodes, r) != 0
    ensures Owned(owner, At(blocks, inodes, r), r) && At(blocks, inodes, r) < |blocks|
  {
    hide At;
  }

  /** A cleared block instead of a hole shows the same zeros. */
  lemma AddKeepsFiles(blocks: seq<Block>, inodes: Inodes, owner: Owners, blocks': seq<Block>, inodes': Inodes, r: Ref,
      b: nat)
    requires RefsOk(blocks, inodes, owner) && Rerefers(blocks, inodes, blocks', inodes', r, b)
    requires At(blocks, inodes, r) == 0
    requires b < |blocks'| == |blocks| && blocks'[b] == Zero && b !in owner
    requires forall c | c in owner && owner[c].Data? :: c < |blocks| && blocks'[c] == blocks[c]
    requires forall i :: i in inodes' <==> i in inodes
    requires forall i | i in inodes :: i in inodes' && inodes'[i].size == inodes[i].size
    ensures SameFiles(blocks, inodes, blocks', inodes') && Stays(blocks, inodes, blocks', inodes')
  {
    hide At;
    forall i: nat, off: nat ensures FileByte(blocks', inodes', i, off) == FileByte(blocks, inodes, i, off) {
      var q := Data(i, off / BSIZE);
      assert At(blocks, inodes, q) != 0 ==> Owned(owner, At(blocks, inodes, q), q);
      assert At(blocks', inodes', q) == if q == r then b else At(blocks, inodes, q);
    }
  }

  // What an operation passes to log_write.

  /** BBLOCK: the bitmap block that holds the bit of block b. */
  function BitBlock(bmapstart: nat, b: nat): nat {
    bmapstart + b / BPB
  }

  /** IBLOCK: the block that holds inode i; IPB is 4. */
  function InodeBlock(inodestart: nat, i: nat): nat {
    inodestart + i / 4
  }

  predicate IsBitBlock(bmapstart: nat, size: nat, b: nat) {
    bmapstart <= b && size > 0 && b <= BitBlock(bmapstart, size - 1)
  }

  /** b is the indirect block of inode i, or one of its blocks lo to hi - 1. */
  predicate Mine(owner: Owners, i: nat, lo: nat, hi: nat, b: nat) {
    b in owner && owner[b].inum == i && (owner[b].Data? ==> lo <= owner[b].bn < hi)
  }

  /** What the log and the bookkeeping see of the file system. */
  datatype View = View(logged: set<nat>, used: seq<bool>, blocks: seq<Block>, owner: Owners)

  /** Nothing was logged but bitmap blocks and the blocks of inode i named by lo and hi. */
  ghost predicate LogsOnly(bmapstart: nat, v: View, w: View, i: nat, lo: nat, hi: nat) {
    && |w.used| == |v.used|
    && (forall b | b in w.logged :: b in v.logged || IsBitBlock(bmapstart, |w.used|, b) || Mine(w.owner, i, lo, hi, b))
  }

  /** From v to w, every bitmap block and every other block that changed or is new was logged, and nothing else
      was but bitmap blocks and the blocks of inode i named by lo and hi. */
  ghost predicate Logs(bmapstart: nat, v: View, w: View, i: nat, lo: nat, hi: nat) {
    && v.logged <= w.logged && |w.blocks| == |v.blocks| && LogsOnly(bmapstart, v, w, i, lo, hi)
    && (forall b | 0 <= b < |w.used| && w.used[b] != v.used[b] :: BitBlock(bmapstart, b) in w.logged)
    && (forall b | 0 <= b < |w.blocks| && w.blocks[b] != v.blocks[b] :: b in w.logged)
    && (forall b | b in v.owner :: b in w.owner && w.owner[b] == v.owner[b])
    && (forall b | b in w.owner && b !in v.owner :: b in w.logged)
  }

  lemma LogsNone(bmapstart: nat, v: View, i: nat, lo: nat, hi: nat)
    ensures Logs(bmapstart, v, v, i, lo, hi)
  {
  }

  lemma LogsTrans(bmapstart: nat, u: View, v: View, w: View, i: nat, lo: nat, hi: nat, from: nat, to: nat)
    requires Logs(bmapstart, u, v, i, lo, hi) && Logs(bmapstart, v, w, i, from, to) && lo <= from && to <= hi
    ensures Logs(bmapstart, u, w, i, lo, hi)
  {
  }

  lemma LogsWiden(bmapstart: nat, v: View, w: View, i: nat, lo: nat, hi: nat, hi': nat)
    requires Logs(bmapstart, v, w, i, lo, hi) && hi <= hi'
    ensures Logs(bmapstart, v, w, i, lo, hi')
  {
  }

  /** The last block of the range is rewritten, and logged. */
  lemma LogsStored(bmapstart: nat, v: View, w: View, x: View, i: nat, lo: nat, bn: nat, b: nat)
    requires Logs(bmapstart, v, w, i, lo, bn + 1) && lo <= bn && Owned(w.owner, b, Data(i, bn)) && b < |w.blocks|
    requires |x.blocks| == |w.blocks| && x.blocks == w.blocks[b := x.blocks[b]]
    requires x.logged == w.logged + {b} && x.used == w.used && x.owner == w.owner
    ensures Logs(bmapstart, v, x, i, lo, bn + 1)
  {
  }

  /** Logging one more block counts as if it had been logged before. */
  lemma LogsAlso(bmapstart: nat, v: View, w: View, i: nat, lo: nat, hi: nat, b: nat)
    requires Logs(bmapstart, v, w, i, lo, hi)
    ensures Logs(bmapstart, v.(logged := v.logged + {b}), w.(logged := w.logged + {b}), i, lo, hi)
  {
  }

  /** How many blocks n bytes at an offset touch. */
  function Spans(off: nat, n: nat): nat {
    (off % BSIZE + n + BSIZE - 1) / BSIZE
  }

  lemma SpansHold(off: nat, n: nat, k: nat)
    requires k < n
    ensures off / BSIZE <= (off + k) / BSIZE < off / BSIZE + Spans(off, n)
  {
  }

  /** How many of the bytes at an offset lie in blocks that they reach the end of. */
  function WholeBlocks(off: nat, n: nat): nat {
    if off % BSIZE + n < BSIZE then 0 else (off + n) / BSIZE * BSIZE - off
  }

  lemma WholeIs(off: nat, n: nat, tot: nat, m: nat, avail: nat)
    requires tot < n && (tot == 0 || (off + tot) % BSIZE == 0)
    ensures tot <= avail < tot + Min(n - tot, BSIZE - (off + tot) % BSIZE) ==> tot == WholeBlocks(off, avail)
    ensures m == Min(n - tot, BSIZE - (off + tot) % BSIZE) ==> tot + m == n || (off + tot + m) % BSIZE == 0
    ensures m == Min(n - tot, BSIZE - (off + tot) % BSIZE) && tot + m < n ==>
      (off + tot + m) / BSIZE == (off + tot) / BSIZE + 1
  {
  }

  /** Of a write that stopped after r bytes, the blocks before the next one are logged. The next one is logged if the
      file did not have it, and otherwise it is not logged for this write, whatever happened to it. */
  ghost predicate SpillLogs(bmapstart: nat, v: View, inodes0: Inodes, w: View, inodes: Inodes, i: nat, off: nat,
      r: nat) {
    var bn := (off + r) / BSIZE;
    var a := At(w.blocks, inodes, Data(i, bn));
    && Owned(w.owner, a, Data(i, bn)) && a < |w.blocks|
    && (At(v.blocks, inodes0, Data(i, bn)) == 0 ==> Logs(bmapstart, v, w, i, off / BSIZE, bn + 1))
    && (At(v.blocks, inodes0, Data(i, bn)) != 0 ==>
        exists was :: LogsBut(bmapstart, v, w, a, was, i, off / BSIZE, bn))
  }

  /** As Logs, if block a were was. */
  ghost predicate LogsBut(bmapstart: nat, v: View, w: View, a: nat, was: Block, i: nat, lo: nat, hi: nat)
    requires a < |w.blocks|
  {
    Logs(bmapstart, v, w.(blocks := w.blocks[a := was]), i, lo, hi)
  }

  /** A block that the file did not have is logged. */
  lemma NewIsLogged(bmapstart: nat, nmeta: nat, v: View, inodes0: Inodes, w: View, i: nat, lo: nat, hi: nat, r: Ref,
      a: nat)
    requires FsOk(nmeta, v.used, v.blocks, inodes0, v.owner) && Logs(bmapstart, v, w, i, lo, hi)
    requires Owned(w.owner, a, r) && At(v.blocks, inodes0, r) == 0
    ensures a in w.logged
  {
    hide At;
  }

  lemma SpillLogsOnly(bmapstart: nat, v: View, inodes0: Inodes, w: View, inodes: Inodes, i: nat, off: nat, r: nat)
    requires SpillLogs(bmapstart, v, inodes0, w, inodes, i, off, r)
    ensures LogsOnly(bmapstart, v, w, i, off / BSIZE, (off + r) / BSIZE + 1)
  {
    hide At;
    var a := At(w.blocks, inodes, Data(i, (off + r) / BSIZE));
    if At(v.blocks, inodes0, Data(i, (off + r) / BSIZE)) != 0 {
      var was :| LogsBut(bmapstart, v, w, a, was, i, off / BSIZE, (off + r) / BSIZE);
    }
  }

  lemma SpillAlso(bmapstart: nat, v: View, inodes0: Inodes, w: View, inodes: Inodes, inodes': Inodes, i: nat, off: nat,
      r: nat, b: nat)
    requires SpillLogs(bmapstart, v, inodes0, w, inodes, i, off, r) && i in inodes
    requires exists size: nat :: inodes' == inodes[i := inodes[i].(size := size)]
    ensures SpillLogs(bmapstart, v.(logged := v.logged + {b}), inodes0, w.(logged := w.logged + {b}), inodes', i, off,
        r)
  {
    hide Logs;
    var bn := (off + r) / BSIZE;
    var a := At(w.blocks, inodes, Data(i, bn));
    assert At(w.blocks, inodes', Data(i, bn)) == a;
    if At(v.blocks, inodes0, Data(i, bn)) == 0 {
      LogsAlso(bmapstart, v, w, i, off / BSIZE, bn + 1, b);
    } else {
      var was :| LogsBut(bmapstart, v, w, a, was, i, off / BSIZE, bn);
      LogsAlso(bmapstart, v, w.(blocks := w.blocks[a := was]), i, off / BSIZE, bn, b);
      assert LogsBut(bmapstart, v.(logged := v.logged + {b}), w.(logged := w.logged + {b}), a, was, i, off / BSIZE, bn);
    }
  }

  /** A block is allocated for a reference. */
  lemma LogsAdd(bmapstart: nat, nmeta: nat, v: View, inodes: Inodes, r: Ref, b: nat, lo: nat)
    requires FsOk(nmeta, v.used, v.blocks, inodes, v.owner) && b < |v.used| && !v.used[b] && (r.Data? ==> lo == r.bn)
    ensures Logs(bmapstart, v, View(v.logged + {BitBlock(bmapstart, b), b}, v.used[b := true], v.blocks[b := Zero],
        v.owner[b := r]), r.inum, lo, lo + 1)
  {
    hide RefsOk, InodesOk;
  }

  /** A block is allocated for a place in the indirect block, which is rewritten. */
  lemma LogsListed(bmapstart: nat, nmeta: nat, v: View, inodes: Inodes, i: nat, bn: nat, b: nat, block: Block)
    requires FsOk(nmeta, v.used, v.blocks, inodes, v.owner) && b < |v.used| && !v.used[b]
    requires At(v.blocks, inodes, Indirect(i)) != 0
    ensures var t := At(v.blocks, inodes, Indirect(i));
      t < |v.blocks| && Logs(bmapstart, v,
          View(v.logged + {BitBlock(bmapstart, b), b} + {t}, v.used[b := true], v.blocks[b := Zero][t := block],
                                                v.owner[b := Data(i, bn)]), i, bn, bn + 1)
  {
    hide At;
    assert Owned(v.owner, At(v.blocks, inodes, Indirect(i)), Indirect(i));
  }

  /** Every bitmap block that changed was logged, and nothing but bitmap blocks. */
  ghost predicate LogsBits(bmapstart: nat, used0: seq<bool>, used: seq<bool>, logged0: set<nat>, logged: set<nat>) {
    && logged0 <= logged && |used| == |used0|
    && (forall b | b in logged :: b in logged0 || IsBitBlock(bmapstart, |used|, b))
    && (forall b | 0 <= b < |used| && used[b] != used0[b] :: BitBlock(bmapstart, b) in logged)
  }

  lemma LogsBitsNone(bmapstart: nat, used: seq<bool>, logged: set<nat>)
    ensures LogsBits(bmapstart, used, used, logged, logged)
  {
  }

  lemma LogsBitsStep(bmapstart: nat, used0: seq<bool>, used: seq<bool>, logged0: set<nat>, logged: set<nat>, b: nat)
    requires LogsBits(bmapstart, used0, used, logged0, logged) && b < |used|
    ensures LogsBits(bmapstart, used0, used[b := false], logged0, logged + {BitBlock(bmapstart, b)})
  {
  }

  lemma LogsBitsAlso(bmapstart: nat, used0: seq<bool>, used: seq<bool>, logged0: set<nat>, logged: set<nat>, b: nat)
    requires LogsBits(bmapstart, used0, used, logged0, logged)
    ensures LogsBits(bmapstart, used0, used, logged0 + {b}, logged + {b})
  {
  }

  /** At most inode i changed. */
  ghost predicate OnlyInode(inodes0: Inodes, inodes: Inodes, i: nat) {
    i in inodes && inodes == inodes0[i := inodes[i]]
  }

  // The edits that operations are made of, as they change the stored file system.

  datatype Store = Store(used: seq<bool>, blocks: seq<Block>, inodes: Inodes)

  datatype Edit =
    | TakeDirect(i: nat, bn: nat, b: nat)
    | TakeIndirect(i: nat, b: nat)
    | TakeListed(i: nat, bn: nat, b: nat)
    | StoreBytes(i: nat, bn: nat, bytes: seq<nat>)
    | SetSize(i: nat, size: nat)
    | Truncate(i: nat)

  function Named(s: Store, r: Ref): nat {
    At(s.blocks, s.inodes, r)
  }

  predicate IsFree(s: Store, b: nat) {
    b < |s.used| && |s.used| == |s.blocks| && !s.used[b]
  }

  predicate HasAddrs(s: Store, i: nat) {
    i in s.inodes && |s.inodes[i].addrs| == NDIRECT + 1
  }

  predicate Allowed(s: Store, d: Edit) {
    match d
    case TakeDirect(i, bn, b) => HasAddrs(s, i) && bn < NDIRECT && Named(s, Data(i, bn)) == 0 && IsFree(s, b)
    case TakeIndirect(i, b) => HasAddrs(s, i) && Named(s, Indirect(i)) == 0 && IsFree(s, b)
    case TakeListed(i, bn, b) =>
      && HasAddrs(s, i) && NDIRECT <= bn < MAXFILE && Named(s, Data(i, bn)) == 0 && IsFree(s, b)
      && 0 < Named(s, Indirect(i)) < |s.blocks| && KindOk(s.blocks[b := Zero][Named(s, Indirect(i))], Indirect(i))
    case StoreBytes(i, bn, bytes) => 0 < Named(s, Data(i, bn)) < |s.blocks| && |bytes| == BSIZE
    case SetSize(i, size) => i in s.inodes && size <= MAXFILE * BSIZE
    case Truncate(i) => HasAddrs(s, i)
  }

  /** b is a block of inode i. */
  ghost predicate Belongs(s: Store, i: nat, b: nat) {
    b != 0 && exists r: Ref :: r.inum == i && Named(s, r) == b
  }

  ghost function Edited(s: Store, d: Edit): Store
    requires Allowed(s, d)
  {
    match d
    case TakeDirect(i, bn, b) => Store(s.used[b := true], s.blocks[b := Zero], SetAddr(s.inodes, i, bn, b))
    case TakeIndirect(i, b) => Store(s.used[b := true], s.blocks[b := Zero], SetAddr(s.inodes, i, NDIRECT, b))
    case TakeListed(i, bn, b) =>
      Store(s.used[b := true], SetWord(s.blocks[b := Zero], Named(s, Indirect(i)), bn - NDIRECT, b), s.inodes)
    case StoreBytes(i, bn, bytes) => s.(blocks := s.blocks[Named(s, Data(i, bn)) := Bytes(bytes)])
    case SetSize(i, size) => s.(inodes := s.inodes[i := s.inodes[i].(size := size)])
    case Truncate(i) =>
      Store(seq(|s.used|, b requires 0 <= b < |s.used| => s.used[b] && !Belongs(s, i, b)), s.blocks,
            s.inodes[i := Inode(Repeat(0, NDIRECT + 1), 0)])
  }

  /** Some owner map makes the file system consistent. */
  ghost predicate Consistent(nmeta: nat, s: Store) {
    exists owner: Owners :: FsOk(nmeta, s.used, s.blocks, s.inodes, owner)
  }

  lemma TruncateKeeps(nmeta: nat, s: Store, owner: Owners, i: nat)
    requires FsOk(nmeta, s.used, s.blocks, s.inodes, owner) && Allowed(s, Truncate(i))
    ensures Consistent(nmeta, Edited(s, Truncate(i)))
  {
    var s' := Edited(s, Truncate(i));
    var owner' := map b | b in owner && owner[b].inum != i :: owner[b];
    TruncateNames(s, i);
    hide At;
    forall b: nat | b < |s.used| ensures Belongs(s, i, b) <==> b in owner && owner[b].inum == i {
      OwnerBelongs(nmeta, s, owner, i, b);
    }
    assert BitmapOk(nmeta, s'.used, owner') by {
      hide RefsOk;
    }
    assert RefsOk(s'.blocks, s'.inodes, owner') by {
      hide BitmapOk;
    }
    assert FsOk(nmeta, s'.used, s'.blocks, s'.inodes, owner');
  }

  lemma TruncateNames(s: Store, i: nat)
    requires Allowed(s, Truncate(i))
    ensures var s' := Edited(s, Truncate(i)); forall r: Ref :: Named(s', r) == if r.inum == i then 0 else Named(s, r)
  {
  }

  lemma OwnerBelongs(nmeta: nat, s: Store, owner: Owners, i: nat, b: nat)
    requires FsOk(nmeta, s.used, s.blocks, s.inodes, owner) && b < |s.used|
    ensures Belongs(s, i, b) <==> b in owner && owner[b].inum == i
  {
    hide At;
    if b in owner && owner[b].inum == i {
      assert Named(s, owner[b]) == b;
      assert b != 0;
    }
  }

  lemma SizeKeeps(nmeta: nat, s: Store, owner: Owners, i: nat, size: nat)
    requires FsOk(nmeta, s.used, s.blocks, s.inodes, owner) && Allowed(s, SetSize(i, size))
    ensures Consistent(nmeta, Edited(s, SetSize(i, size)))
  {
    var s' := Edited(s, SetSize(i, size));
    forall r: Ref ensures At(s'.blocks, s'.inodes, r) == At(s.blocks, s.inodes, r) {
    }
    hide At;
    assert FsOk(nmeta, s'.used, s'.blocks, s'.inodes, owner);
  }

  /** Every edit keeps consistency. */
  lemma EditKeeps(nmeta: nat, s: Store, d: Edit)
    requires Consistent(nmeta, s) && Allowed(s, d)
    ensures Consistent(nmeta, Edited(s, d))
  {
    hide FsOk, At, SameFiles, Stays, Belongs;
    var owner: Owners :| FsOk(nmeta, s.used, s.blocks, s.inodes, owner);
    match d
    case TakeDirect(i, bn, b) => DirectAdded(nmeta, s.used, s.blocks, s.inodes, owner, i, bn, b);
    case TakeIndirect(i, b) => IndirectAdded(nmeta, s.used, s.blocks, s.inodes, owner, i, b);
    case TakeListed(i, bn, b) =>
      Unchanged(s.blocks, s.inodes);
      ListedAdded(nmeta, s.used, s.blocks, s.inodes, owner, i, bn, b, s.blocks, s.inodes);
    case StoreBytes(i, bn, bytes) => StoreBlock(nmeta, s.used, s.blocks, s.inodes, owner, i, bn, bytes);
    case SetSize(i, size) => SizeKeeps(nmeta, s, owner, i, size);
    case Truncate(i) => TruncateKeeps(nmeta, s, owner, i);
  }

  ghost predicate AllAllowed(s: Store, edits: seq<Edit>)
    decreases |edits|
  {
    edits == [] || (Allowed(s, edits[0]) && AllAllowed(Edited(s, edits[0]), edits[1..]))
  }

  ghost function AfterAll(s: Store, edits: seq<Edit>): Store
    requires AllAllowed(s, edits)
    decreases |edits|
  {
    if edits == [] then s else AfterAll(Edited(s, edits[0]), edits[1..])
  }

  /** Edits, each allowed where it is made, lead from s to s'. */
  ghost predicate Leads(s: Store, s': Store) {
    exists edits :: AllAllowed(s, edits) && AfterAll(s, edits) == s'
  }

  lemma LeadsNone(s: Store)
    ensures Leads(s, s)
  {
    assert AllAllowed(s, []) && AfterAll(s, []) == s;
  }

  lemma LeadsOne(s: Store, d: Edit)
    requires Allowed(s, d)
    ensures Leads(s, Edited(s, d))
  {
    hide Edited, Allowed;
    assert AllAllowed(s, [d]) && AfterAll(s, [d]) == Edited(s, d) by {
      assert AllAllowed(Edited(s, d), []) && [d][1..] == [];
    }
  }

  lemma {:induction false} AllTrans(s: Store, a: seq<Edit>, b: seq<Edit>)
    requires AllAllowed(s, a) && AllAllowed(AfterAll(s, a), b)
    ensures AllAllowed(s, a + b) && AfterAll(s, a + b) == AfterAll(AfterAll(s, a), b)
    decreases |a|
  {
    hide Edited, Allowed;
    if a == [] {
      assert a + b == b;
    } else {
      AllTrans(Edited(s, a[0]), a[1..], b);
      assert (a + b)[1..] == a[1..] + b;
    }
  }

  lemma LeadsTrans(s: Store, s': Store, s'': Store)
    requires Leads(s, s') && Leads(s', s'')
    ensures Leads(s, s'')
  {
    hide AllAllowed, AfterAll;
    var a :| AllAllowed(s, a) && AfterAll(s, a) == s';
    var b :| AllAllowed(s', b) && AfterAll(s', b) == s'';
    AllTrans(s, a, b);
  }

  lemma {:induction false} AllKeep(nmeta: nat, s: Store, edits: seq<Edit>)
    requires Consistent(nmeta, s) && AllAllowed(s, edits)
    ensures Consistent(nmeta, AfterAll(s, edits))
    decreases |edits|
  {
    hide Edited, Allowed, Consistent;
    if edits != [] {
      EditKeeps(nmeta, s, edits[0]);
      AllKeep(nmeta, Edited(s, edits[0]), edits[1..]);
    }
  }

  /** So what they lead to is consistent. */
  lemma LeadsKeeps(nmeta: nat, s: Store, s': Store)
    requires Consistent(nmeta, s) && Leads(s, s')
    ensures Consistent(nmeta, s')
  {
    hide Consistent, AllAllowed, AfterAll;
    var edits :| AllAllowed(s, edits) && AfterAll(s, edits) == s';
    AllKeep(nmeta, s, edits);
  }

  lemma LeadsDirect(nmeta: nat, s: Store, owner: Owners, i: nat, bn: nat, b: nat)
    requires FsOk(nmeta, s.used, s.blocks, s.inodes, owner) && i in s.inodes && bn < NDIRECT && b < |s.used|
    requires !s.used[b]
    requires At(s.blocks, s.inodes, Data(i, bn)) == 0
    ensures HasAddrs(s, i) && |s.blocks| == |s.used|
    ensures Leads(s, Store(s.used[b := true], s.blocks[b := Zero], SetAddr(s.inodes, i, bn, b)))
  {
    hide At, Leads;
    LeadsOne(s, TakeDirect(i, bn, b));
  }

  lemma LeadsIndirect(nmeta: nat, s: Store, owner: Owners, i: nat, b: nat)
    requires FsOk(nmeta, s.used, s.blocks, s.inodes, owner) && i in s.inodes && b < |s.used| && !s.used[b]
    requires At(s.blocks, s.inodes, Indirect(i)) == 0
    ensures HasAddrs(s, i) && |s.blocks| == |s.used|
    ensures Leads(s, Store(s.used[b := true], s.blocks[b := Zero], SetAddr(s.inodes, i, NDIRECT, b)))
  {
    hide At, Leads;
    LeadsOne(s, TakeIndirect(i, b));
  }

  lemma LeadsListed(nmeta: nat, s: Store, owner: Owners, i: nat, bn: nat, b: nat)
    requires FsOk(nmeta, s.used, s.blocks, s.inodes, owner) && i in s.inodes && NDIRECT <= bn < MAXFILE
    requires b < |s.used| && !s.used[b] && At(s.blocks, s.inodes, Data(i, bn)) == 0
    requires At(s.blocks, s.inodes, Indirect(i)) != 0
    ensures var t := At(s.blocks, s.inodes, Indirect(i));
      && t < |s.blocks| && |s.blocks| == |s.used| && KindOk(s.blocks[b := Zero][t], Indirect(i))
      && Leads(s, Store(s.used[b := true], SetWord(s.blocks[b := Zero], t, bn - NDIRECT, b), s.inodes))
  {
    hide At, Leads;
    assert Owned(owner, At(s.blocks, s.inodes, Indirect(i)), Indirect(i));
    LeadsOne(s, TakeListed(i, bn, b));
  }

  lemma LeadsStore(nmeta: nat, s: Store, owner: Owners, i: nat, bn: nat, bytes: seq<nat>)
    requires FsOk(nmeta, s.used, s.blocks, s.inodes, owner) && At(s.blocks, s.inodes, Data(i, bn)) != 0
    requires |bytes| == BSIZE
    ensures var b := At(s.blocks, s.inodes, Data(i, bn));
      b < |s.blocks| && Leads(s, s.(blocks := s.blocks[b := Bytes(bytes)]))
  {
    hide At, Leads;
    assert Owned(owner, At(s.blocks, s.inodes, Data(i, bn)), Data(i, bn));
    LeadsOne(s, StoreBytes(i, bn, bytes));
  }

  lemma LeadsSize(s: Store, i: nat, size: nat)
    requires i in s.inodes && size <= MAXFILE * BSIZE
    ensures Leads(s, s.(inodes := s.inodes[i := s.inodes[i].(size := size)]))
  {
    hide Leads;
    LeadsOne(s, SetSize(i, size));
  }

  /** What itrunc leaves is what the one edit leaves. */
  lemma LeadsTruncate(nmeta: nat, s: Store, owner: Owners, s': Store, owner': Owners, i: nat)
    requires FsOk(nmeta, s.used, s.blocks, s.inodes, owner) && i in s.inodes && s'.blocks == s.blocks
    requires |s'.used| == |s.used|
    requires FsOk(nmeta, s'.used, s'.blocks, s'.inodes, owner') && OnlyInode(s.inodes, s'.inodes, i)
    requires s'.inodes[i].size == 0
    requires forall r: Ref | r.inum == i :: At(s'.blocks, s'.inodes, r) == 0
    requires owner' == map b | b in owner && owner[b].inum != i :: owner[b]
    ensures Leads(s, s')
  {
    hide Leads;
    AddrsGone(s', i);
    hide At;
    var t := Edited(s, Truncate(i));
    forall b: nat | b < |s.used| ensures s'.used[b] == t.used[b] {
      if b in owner && owner[b].inum == i {
        assert Named(s, owner[b]) == b;
      }
    }
    assert s' == t;
    LeadsOne(s, Truncate(i));
  }

  lemma AddrsGone(s: Store, i: nat)
    requires HasAddrs(s, i) && s.inodes[i].size == 0 && forall r: Ref | r.inum == i :: At(s.blocks, s.inodes, r) == 0
    ensures s.inodes[i] == Inode(Repeat(0, NDIRECT + 1), 0)
  {
    forall k: nat | k <= NDIRECT ensures s.inodes[i].addrs[k] == 0 {
      assert At(s.blocks, s.inodes, if k < NDIRECT then Data(i, k) else Indirect(i)) == 0;
    }
  }

  class Fs {
    const nmeta: nat
    const bmapstart: nat
    const inodestart: nat
    var used: seq<bool>
    var blocks: seq<Block>
    var inodes: Inodes
    ghost var owner: Owners
    /** The blocks logged by the operation so far. */
    var logged: set<nat>

    /** The file system that a disk holds, after a boot. */
    constructor (nmeta: nat, bmapstart: nat, inodestart: nat, used: seq<bool>, blocks: seq<Block>, inodes: Inodes,
        ghost owner: Owners)
      requires FsOk(nmeta, used, blocks, inodes, owner)
      ensures Valid() && this.nmeta == nmeta && this.bmapstart == bmapstart && this.inodestart == inodestart
      ensures this.used == used && this.blocks == blocks && this.inodes == inodes && this.owner == owner && logged == {}
    {
      this.nmeta, this.bmapstart, this.inodestart := nmeta, bmapstart, inodestart;
      this.used, this.blocks, this.inodes, this.owner, logged := used, blocks, inodes, owner, {};
    }

    ghost function Seen(): View
      reads this
    {
      View(logged, used, blocks, owner)
    }

    ghost function Now(): Store
      reads this
    {
      Store(used, blocks, inodes)
    }

    ghost predicate Valid()
      reads this
    {
      FsOk(nmeta, used, blocks, inodes, owner)
    }

    /** balloc: the first clear bit of the bitmap, its block cleared; 0 when there is none. */
    method Balloc() returns (b: nat)
      requires |blocks| == |used| && |used| > 0 && used[0]
      modifies `used, `blocks, `logged
      ensures b != 0 ==> logged == old(logged) + {BitBlock(bmapstart, b), b}
      ensures b == 0 ==> unchanged(this) && forall c | 0 <= c < |used| :: used[c]
      ensures b != 0 ==>
        b < |old(used)| && !old(used)[b] && used == old(used)[b := true] && blocks == old(blocks)[b := Zero]
      ensures b != 0 ==> forall c | 0 <= c < b :: old(used)[c]
    {
      b := 0;
      var base := 0;
      while base < |used|
        invariant forall c | 0 <= c < base && c < |used| :: used[c]
        invariant unchanged(this)
      {
        var bi := 0;
        while bi < BPB && base + bi < |used|
          invariant 0 <= bi <= BPB && (base + bi <= |used| || bi == 0)
          invariant forall c | 0 <= c < base + bi && c < |used| :: used[c]
        {
          if !used[base + bi] {
            b := base + bi;
            used, blocks := used[b := true], blocks[b := Zero];
            logged := logged + {BitBlock(bmapstart, b), b};
            return;
          }
          bi := bi + 1;
        }
        base := base + BPB;
      }
    }

    /** bmap: the block for bn, allocated if there is none; 0 when the disk is full. */
    method Bmap(i: nat, bn: nat) returns (addr: nat)
      requires Valid() && i in inodes && bn < MAXFILE
      modifies this
      ensures Valid() && SameFiles(old(blocks), old(inodes), blocks, inodes)
      ensures Stays(old(blocks), old(inodes), blocks, inodes)
      ensures addr == 0 || addr == At(blocks, inodes, Data(i, bn))
      ensures addr == 0 ==> forall c | 0 <= c < |used| :: used[c]
      ensures At(old(blocks), old(inodes), Data(i, bn)) != 0 ==> unchanged(this) && addr != 0
      ensures Logs(bmapstart, old(Seen()), Seen(), i, bn, bn + 1) && OnlyInode(old(inodes), inodes, i)
      ensures Leads(old(Now()), Now())
    {
      hide FsOk, SameFiles, Stays, At, Logs, Mine, Leads;
      LeadsNone(Now());
      Unchanged(blocks, inodes);
      AddrsAt(nmeta, used, blocks, inodes, owner, i, bn);
      LogsNone(bmapstart, Seen(), i, bn, bn + 1);
      if bn < NDIRECT {
        addr := inodes[i].addrs[bn];
        if addr == 0 {
          addr := Balloc();
          if addr != 0 {
            DirectAdded(nmeta, old(used), old(blocks), inodes, owner, i, bn, addr);
            LeadsDirect(nmeta, old(Now()), owner, i, bn, addr);
            LogsAdd(bmapstart, nmeta, old(Seen()), inodes, Data(i, bn), addr, bn);
            inodes, owner := SetAddr(inodes, i, bn, addr), owner[addr := Data(i, bn)];
          }
        }
      } else {
        addr := inodes[i].addrs[NDIRECT];
        if addr == 0 {
          addr := AddIndirect(i, bn);
        }
        if addr != 0 {
          ghost var v, mid := Seen(), Now();
          addr := Listed(i, bn, old(blocks), old(inodes));
          LeadsTrans(old(Now()), mid, Now());
          LogsTrans(bmapstart, old(Seen()), v, Seen(), i, bn, bn + 1, bn, bn + 1);
        }
      }
    }

    /** Give inode i an indirect block. */
    method AddIndirect(i: nat, ghost bn: nat) returns (addr: nat)
      requires Valid() && i in inodes && At(blocks, inodes, Indirect(i)) == 0
      modifies this
      ensures Valid() && SameFiles(old(blocks), old(inodes), blocks, inodes)
      ensures Stays(old(blocks), old(inodes), blocks, inodes)
      ensures addr == At(blocks, inodes, Indirect(i)) && i in inodes
      ensures addr == 0 ==> unchanged(this) && forall c | 0 <= c < |used| :: used[c]
      ensures Logs(bmapstart, old(Seen()), Seen(), i, bn, bn + 1) && OnlyInode(old(inodes), inodes, i)
      ensures Leads(old(Now()), Now())
    {
      hide FsOk, SameFiles, Stays, At, Logs, Leads;
      LeadsNone(Now());
      Unchanged(blocks, inodes);
      AddrsAt(nmeta, used, blocks, inodes, owner, i, NDIRECT);
      LogsNone(bmapstart, Seen(), i, bn, bn + 1);
      addr := Balloc();
      if addr != 0 {
        LogsAdd(bmapstart, nmeta, old(Seen()), inodes, Indirect(i), addr, bn);
        IndirectAdded(nmeta, old(used), old(blocks), inodes, owner, i, addr);
        LeadsIndirect(nmeta, old(Now()), owner, i, addr);
        inodes, owner := SetAddr(inodes, i, NDIRECT, addr), owner[addr := Indirect(i)];
      }
    }

    /** bmap's second half: the block listed in the indirect block. */
    method Listed(i: nat, bn: nat, ghost blocks0: seq<Block>, ghost inodes0: Inodes) returns (addr: nat)
      requires Valid() && i in inodes && NDIRECT <= bn < MAXFILE && At(blocks, inodes, Indirect(i)) != 0
      requires SameFiles(blocks0, inodes0, blocks, inodes) && Stays(blocks0, inodes0, blocks, inodes)
      modifies this
      ensures Valid() && SameFiles(blocks0, inodes0, blocks, inodes) && Stays(blocks0, inodes0, blocks, inodes)
      ensures addr == 0 || addr == At(blocks, inodes, Data(i, bn))
      ensures addr == 0 ==> forall c | 0 <= c < |used| :: used[c]
      ensures At(old(blocks), old(inodes), Data(i, bn)) != 0 ==> unchanged(this) && addr != 0
      ensures Logs(bmapstart, old(Seen()), Seen(), i, bn, bn + 1) && inodes == old(inodes)
      ensures Leads(old(Now()), Now())
    {
      hide FsOk, SameFiles, Stays, At, Logs, Leads;
      LeadsNone(Now());
      LogsNone(bmapstart, Seen(), i, bn, bn + 1);
      AddrsAt(nmeta, used, blocks, inodes, owner, i, bn);
      var t := inodes[i].addrs[NDIRECT];
      addr := WordAt(blocks, t, bn - NDIRECT);
      if addr == 0 {
        addr := Balloc();
        if addr != 0 {
          ListedAdded(nmeta, old(used), old(blocks), inodes, owner, i, bn, addr, blocks0, inodes0);
          LeadsListed(nmeta, old(Now()), owner, i, bn, addr);
          LogsListed(bmapstart, nmeta, old(Seen()), inodes, i, bn, addr, SetWord(blocks, t, bn - NDIRECT, addr)[t]);
          blocks, owner := SetWord(blocks, t, bn - NDIRECT, addr), owner[addr := Data(i, bn)];
          logged := logged + {t};
        }
      }
    }

    /** writei on its way: the bytes of part are written and the size is still the old one. */
    ghost predicate Writing(v: View, inodes0: Inodes, i: nat, off: nat, hi: nat, part: seq<nat>)
      reads this
    {
      && Unsized(v, inodes0, i, off, part)
      && Logs(bmapstart, v, Seen(), i, off / BSIZE, hi)
    }

    ghost predicate Unsized(v: View, inodes0: Inodes, i: nat, off: nat, part: seq<nat>)
      reads this
    {
      && Valid() && i in inodes0 && OnlyInode(inodes0, inodes, i) && Stays(v.blocks, inodes0, blocks, inodes)
      && Wrote(v.blocks, inodes0, blocks, inodes, i, off, part) && SizeIs(inodes0, inodes, i, inodes0[i].size)
      && Leads(Store(v.used, v.blocks, inodes0), Now())
    }

    /** The first half of a round of writei's loop: the next block. */
    method NextBlock(i: nat, off: nat, part: seq<nat>, ghost v: View, ghost inodes0: Inodes) returns (addr: nat)
      requires off + |part| < MAXFILE * BSIZE && off / BSIZE <= (off + |part|) / BSIZE
      requires Writing(v, inodes0, i, off, (off + |part|) / BSIZE, part)
      modifies this
      ensures Writing(v, inodes0, i, off, (off + |part|) / BSIZE + 1, part)
      ensures addr == 0 || addr == At(blocks, inodes, Data(i, (off + |part|) / BSIZE))
      ensures addr == 0 ==> forall c | 0 <= c < |used| :: used[c]
      ensures At(v.blocks, inodes0, Data(i, (off + |part|) / BSIZE)) != 0 ==> unchanged(this) && addr != 0
    {
      hide FsOk, Wrote, Stays, At, SizeIs, Logs, Mine, SameFiles, FileByte, Leads;
      var bn := (off + |part|) / BSIZE;
      ghost var u := Seen();
      StaysAt(v.blocks, inodes0, blocks, inodes, Data(i, bn));
      addr := Bmap(i, bn);
      BmapStep(v.blocks, inodes0, u.blocks, old(inodes), blocks, inodes, i, off, part);
      LogsWiden(bmapstart, v, u, i, off / BSIZE, bn, bn + 1);
      LogsTrans(bmapstart, v, u, Seen(), i, off / BSIZE, bn + 1, bn, bn + 1);
      LeadsTrans(Store(v.used, v.blocks, inodes0), old(Now()), Now());
    }

    /** The second half: n bytes are stored in it. */
    method StoreNext(i: nat, off: nat, src: seq<nat>, tot: nat, n: nat, addr: nat, ghost v: View, ghost inodes0: Inodes)
      requires tot < |src| && n == Min(|src| - tot, BSIZE - (off + tot) % BSIZE)
      requires Unsized(v, inodes0, i, off, src[..tot]) && addr == At(blocks, inodes, Data(i, (off + tot) / BSIZE)) != 0
      modifies `blocks
      ensures Unsized(v, inodes0, i, off, src[..tot + n]) && addr < |blocks| == |old(blocks)|
      ensures blocks == old(blocks)[addr := blocks[addr]] && blocks[addr].Bytes?
      ensures Owned(owner, addr, Data(i, (off + tot) / BSIZE))
      ensures addr == At(blocks, inodes, Data(i, (off + tot) / BSIZE))
    {
      hide FsOk, Wrote, Stays, At, SizeIs, Logs, Mine, SameFiles, FileByte, Leads;
      ghost var bn := (off + tot) / BSIZE;
      OwnsAt(nmeta, used, blocks, inodes, owner, Data(i, bn));
      WriteStep(nmeta, used, v.blocks, inodes0, blocks, inodes, owner, i, off, src, tot, n);
      var block := Bytes(Patch(BytesOf(blocks[addr]), (off + tot) % BSIZE, src[tot..tot + n]));
      LeadsStore(nmeta, Now(), owner, i, bn, block.bytes);
      StoreBlock(nmeta, used, blocks, inodes, owner, i, bn, block.bytes);
      blocks := blocks[addr := block];
      LeadsTrans(Store(v.used, v.blocks, inodes0), old(Now()), Now());
    }

    /** writei has met bytes that it cannot read: the bytes of all are in the file, and those of part are logged. */
    ghost predicate Spilled(v: View, inodes0: Inodes, i: nat, off: nat, part: seq<nat>, all: seq<nat>)
      reads this
    {
      Unsized(v, inodes0, i, off, all) && SpillLogs(bmapstart, v, inodes0, Seen(), inodes, i, off, |part|)
    }

    /** One round of writei's loop: the bytes that fall in the next block, none if the disk is full or they cannot
        all be read. In that case those that can be read are in the block all the same. */
    method WriteBlock(i: nat, off: nat, src: seq<nat>, tot: nat, avail: nat, ghost v: View, ghost inodes0: Inodes)
      returns (m: nat, ghost spill: nat)
      requires tot < |src| && tot <= avail <= |src| && off + |src| <= MAXFILE * BSIZE
      requires Writing(v, inodes0, i, off, (off + tot) / BSIZE, src[..tot])
      requires FsOk(nmeta, v.used, v.blocks, inodes0, v.owner)
      modifies this
      ensures tot + m + spill <= avail && (m > 0 ==> m == Min(|src| - tot, BSIZE - (off + tot) % BSIZE))
      ensures spill == 0 ==> Writing(v, inodes0, i, off, (off + tot) / BSIZE + 1, src[..tot + m])
      ensures spill > 0 ==> m == 0 && Spilled(v, inodes0, i, off, src[..tot], src[..avail])
      ensures m == 0 ==>
        (spill == 0 && !HasBlock(v.blocks, inodes0, i, off + tot) && forall c | 0 <= c < |used| :: used[c])
        || (tot + spill == avail < tot + Min(|src| - tot, BSIZE - (off + tot) % BSIZE))
    {
      hide FsOk, Wrote, Stays, At, SizeIs, Logs, Mine, Spans, SameFiles, FileByte, Leads;
      m, spill := 0, 0;
      ghost var bn := (off + tot) / BSIZE;
      assert |src[..tot]| == tot;
      var addr := NextBlock(i, off, src[..tot], v, inodes0);
      if addr == 0 {
        return;
      }
      var n := Min(|src| - tot, BSIZE - (off + tot) % BSIZE);
      ghost var w := Seen();
      if tot + n <= avail {
        StoreNext(i, off, src, tot, n, addr, v, inodes0);
        logged := logged + {addr};
        LogsStored(bmapstart, v, w, Seen(), i, off / BSIZE, bn, addr);
        m := n;
      } else if tot < avail {
        assert src[..avail][..tot] == src[..tot] && src[..avail][..avail] == src[..avail];
        StoreNext(i, off, src[..avail], tot, avail - tot, addr, v, inodes0);
        if At(v.blocks, inodes0, Data(i, bn)) == 0 {
          NewIsLogged(bmapstart, nmeta, v, inodes0, w, i, off / BSIZE, bn + 1, Data(i, bn), addr);
          assert w.logged + {addr} == w.logged;
          LogsStored(bmapstart, v, w, Seen(), i, off / BSIZE, bn, addr);
        } else {
          assert blocks[addr := w.blocks[addr]] == w.blocks;
          assert LogsBut(bmapstart, v, Seen(), addr, w.blocks[addr], i, off / BSIZE, bn);
        }
        spill := avail - tot;
      }
    }

    /** The loop of writei. */
    method WriteBlocks(i: nat, off: nat, src: seq<nat>, avail: nat) returns (tot: nat, ghost spill: nat)
      requires Valid() && i in inodes && off + |src| <= MAXFILE * BSIZE && avail <= |src|
      modifies this
      ensures tot + spill <= avail
      ensures spill == 0 ==>
        Writing(old(Seen()), old(inodes), i, off, off / BSIZE + Spans(off, |src|), src[..tot])
      ensures spill > 0 ==> Spilled(old(Seen()), old(inodes), i, off, src[..tot], src[..tot + spill])
      ensures tot < |src| ==>
        (spill == 0 && !HasBlock(old(blocks), old(inodes), i, off + tot) && forall c | 0 <= c < |used| :: used[c])
        || (tot + spill == avail < |src| && tot == WholeBlocks(off, avail))
    {
      hide FsOk, Wrote, Stays, At, SizeIs, Logs, Mine, Spans, FileByte, Leads, SpillLogs, WholeBlocks;
      LeadsNone(Now());
      Unchanged(blocks, inodes);
      WroteNone(blocks, inodes, i, off);
      assert src[..0] == [];
      ghost var hi: nat := off / BSIZE;
      LogsNone(bmapstart, Seen(), i, hi, hi);
      tot, spill := 0, 0;
      var m := 1;
      while tot < |src| && m != 0
        invariant tot + spill <= avail && (tot == 0 || tot == |src| || (off + tot) % BSIZE == 0)
        invariant spill == 0 ==> Writing(old(Seen()), old(inodes), i, off, hi, src[..tot])
        invariant hi <= off / BSIZE + Spans(off, |src|) && (m != 0 && tot < |src| ==> hi == (off + tot) / BSIZE)
        invariant spill > 0 ==> m == 0 && Spilled(old(Seen()), old(inodes), i, off, src[..tot], src[..tot + spill])
        invariant m == 0 ==> tot < |src|
        invariant m == 0 ==>
          (spill == 0 && !HasBlock(old(blocks), old(inodes), i, off + tot) && forall c | 0 <= c < |used| :: used[c])
          || (tot + spill == avail < |src| && tot == WholeBlocks(off, avail))
        decreases |src| - tot, m
      {
        SpansHold(off, |src|, tot);
        m, spill := WriteBlock(i, off, src, tot, avail, old(Seen()), old(inodes));
        WholeIs(off, |src|, tot, m, avail);
        hi := (off + tot) / BSIZE + 1;
        tot := tot + m;
      }
      if spill == 0 {
        LogsWiden(bmapstart, old(Seen()), Seen(), i, off / BSIZE, hi, off / BSIZE + Spans(off, |src|));
      }
    }

    /** writei. Of src the first avail bytes can be read, all of it if it is in the kernel. The result is -1, or the
        number of bytes written, all of them unless the disk is full or a byte cannot be read. What it changed is
        logged, and little else; but see SpillLogs for bytes that it can read in a block that it cannot complete. */
    method Writei(i: nat, off: nat, src: seq<nat>, avail: nat) returns (r: int, ghost spill: nat)
      requires Valid() && i in inodes && off < TWO32 && |src| < TWO32 && avail <= |src|
      modifies this
      ensures Valid() && Stays(old(blocks), old(inodes), blocks, inodes) && i in inodes
      ensures r == -1 <==> off > old(inodes)[i].size || off + |src| > MAXFILE * BSIZE
      ensures r == -1 ==> unchanged(this) && spill == 0
      ensures r != -1 ==>
        0 <= r <= r + spill <= avail && Wrote(old(blocks), old(inodes), blocks, inodes, i, off, src[..r + spill])
      ensures r != -1 ==> SizeIs(old(inodes), inodes, i, Max(old(inodes)[i].size, off + r))
      ensures 0 <= r < |src| ==>
        (spill == 0 && !HasBlock(old(blocks), old(inodes), i, off + r) && forall c | 0 <= c < |used| :: used[c])
        || (r + spill == avail < |src| && r == WholeBlocks(off, avail))
      ensures Leads(old(Now()), Now()) && OnlyInode(old(inodes), inodes, i)
      ensures r != -1 && spill == 0 ==>
        Logs(bmapstart, old(Seen()).(logged := old(logged) + {InodeBlock(inodestart, i)}), Seen(), i, off / BSIZE,
        off / BSIZE + Spans(off, |src|))
      ensures spill > 0 ==>
        SpillLogs(bmapstart, old(Seen()).(logged := old(logged) + {InodeBlock(inodestart, i)}), old(inodes), Seen(),
        inodes, i, off, r)
    {
      hide FsOk, Wrote, Stays, At, SizeIs, Logs, Mine, Spans, InodeBlock, FileByte, Leads, SpillLogs, WholeBlocks;
      LeadsNone(Now());
      Unchanged(blocks, inodes);
      if off > inodes[i].size || (off + |src|) % TWO32 < off || off + |src| > MAXFILE * BSIZE {
        return -1, 0;
      }
      var tot;
      tot, spill := WriteBlocks(i, off, src, avail);
      var ib := InodeBlock(inodestart, i);
      ghost var mid := inodes;
      FinishSize(i, off, src[..tot + spill], tot, old(Seen()), old(inodes));
      if spill == 0 {
        LogsAlso(bmapstart, old(Seen()), Seen(), i, off / BSIZE, off / BSIZE + Spans(off, |src|), ib);
      } else {
        SpillAlso(bmapstart, old(Seen()), old(inodes), Seen(), mid, inodes, i, off, tot, ib);
      }
      logged := logged + {ib};
      r := tot;
    }

    /** The end of writei: the size goes up to what was written. */
    method FinishSize(i: nat, off: nat, ghost part: seq<nat>, tot: nat, ghost v: View, ghost inodes0: Inodes)
      requires Unsized(v, inodes0, i, off, part) && off + tot <= MAXFILE * BSIZE
      modifies `inodes
      ensures Valid() && i in inodes0 && Stays(v.blocks, inodes0, blocks, inodes)
      ensures Wrote(v.blocks, inodes0, blocks, inodes, i, off, part)
      ensures SizeIs(inodes0, inodes, i, Max(inodes0[i].size, off + tot))
      ensures Leads(Store(v.used, v.blocks, inodes0), Now()) && OnlyInode(inodes0, inodes, i)
      ensures i in old(inodes) && i in inodes && inodes == old(inodes)[i := old(inodes)[i].(size := inodes[i].size)]
    {
      hide FsOk, Wrote, Stays, At, SizeIs, FileByte, Leads;
      SizeBound(nmeta, used, blocks, inodes, owner, i);
      Resize(nmeta, used, v.blocks, inodes0, blocks, inodes, owner, i, off, part, Max(inodes[i].size, off + tot));
      if off + tot > inodes[i].size {
        LeadsSize(Now(), i, off + tot);
        inodes := inodes[i := inodes[i].(size := off + tot)];
        LeadsTrans(Store(v.used, v.blocks, inodes0), old(Now()), Now());
      }
    }

    /** readi on its way. */
    ghost predicate Reading(blocks0: seq<Block>, inodes0: Inodes, i: nat, off: nat, dst: seq<nat>)
      reads this
    {
      && Valid() && i in inodes && SameFiles(blocks0, inodes0, blocks, inodes) &&
        Stays(blocks0, inodes0, blocks, inodes)
      && Shows(blocks0, inodes0, i, off, dst)
    }

    /** One round of readi's loop: the bytes that lie in the next block, as many as the destination takes. */
    method ReadBlock(i: nat, off: nat, dst: seq<nat>, len: nat, room: nat, ghost blocks0: seq<Block>,
        ghost inodes0: Inodes) returns (got: seq<nat>, more: bool, fault: bool)
      requires Reading(blocks0, inodes0, i, off, dst) && |dst| < len && |dst| <= room && off + len <= MAXFILE * BSIZE
      modifies this
      ensures Reading(blocks0, inodes0, i, off, got) && |got| <= len && |got| <= room
      ensures more ==> !fault && |got| > |dst|
      ensures fault ==> |got| == room < len
      ensures !more && !fault ==> got == dst && forall c | 0 <= c < |used| :: used[c]
      ensures HasBlock(blocks0, inodes0, i, off + |dst|) ==> unchanged(this) && (more || fault)
    {
      hide FsOk, SameFiles, Stays, At, FileByte, Shows;
      var bn := (off + |dst|) / BSIZE;
      StaysAt(blocks0, inodes0, blocks, inodes, Data(i, bn));
      var addr := Bmap(i, bn);
      SameTrans(blocks0, inodes0, old(blocks), old(inodes), blocks, inodes);
      got, more, fault := dst, addr != 0, false;
      if more {
        var m, o := Min(len - |dst|, BSIZE - (off + |dst|) % BSIZE), (off + |dst|) % BSIZE;
        if |dst| + m > room {
          more, fault, m := false, true, room - |dst|;
        }
        ReadStep(nmeta, used, blocks0, inodes0, blocks, inodes, owner, i, off, dst, m);
        got := dst + BytesOf(blocks[addr])[o..o + m];
      }
    }

    /** readi. The destination takes room bytes, any number if it is in the kernel: the requested bytes of the file up
        to its size, or -1 after as many as it takes. A hole it meets is filled with a cleared block, so that it
        stops early only on a file with holes and a full disk. */
    method Readi(i: nat, off: nat, n: nat, room: nat) returns (r: int, dst: seq<nat>)
      requires Valid() && i in inodes && off < TWO32 && n < TWO32
      modifies this
      ensures Valid() && SameFiles(old(blocks), old(inodes), blocks, inodes)
      ensures Stays(old(blocks), old(inodes), blocks, inodes)
      ensures |dst| <= Min(room, Clip(old(inodes)[i].size, off, n)) && Shows(old(blocks), old(inodes), i, off, dst)
      ensures r == -1 ==> |dst| == room < Clip(old(inodes)[i].size, off, n)
      ensures r != -1 ==>
        r == |dst| && (r < Clip(old(inodes)[i].size, off, n) ==> forall c | 0 <= c < |used| :: used[c])
      ensures NoHole(old(blocks), old(inodes), i, off, Clip(old(inodes)[i].size, off, n)) ==>
        unchanged(this) && |dst| == Min(room, Clip(old(inodes)[i].size, off, n))
        && (r == -1 <==> room < Clip(old(inodes)[i].size, off, n))
    {
      hide FsOk, SameFiles, Stays, At, FileByte, Shows, HasBlock;
      Unchanged(blocks, inodes);
      ShowsNone(blocks, inodes, i, off);
      r, dst := 0, [];
      if off > inodes[i].size || (off + n) % TWO32 < off {
        return;
      }
      var len := if off + n > inodes[i].size then inodes[i].size - off else n;
      SizeBound(nmeta, used, blocks, inodes, owner, i);
      var more, fault := true, false;
      while |dst| < len && more
        invariant |dst| <= len == Clip(old(inodes)[i].size, off, n) && |dst| <= room
        invariant Reading(old(blocks), old(inodes), i, off, dst)
        invariant fault ==> !more && |dst| == room < len
        invariant !more && !fault ==> |dst| < len && forall c | 0 <= c < |used| :: used[c]
        invariant NoHole(old(blocks), old(inodes), i, off, len) ==> unchanged(this) && (more || fault)
        decreases len - |dst|, more
      {
        dst, more, fault := ReadBlock(i, off, dst, len, room, old(blocks), old(inodes));
      }
      r := if fault then -1 else |dst|;
    }

    /** bfree: clears the block's bit; fails, where the kernel panics, if it is clear already. */
    method Bfree(b: nat) returns (ok: bool)
      requires b < |used|
      modifies `used, `logged
      ensures ok <==> old(used)[b]
      ensures used == old(used)[b := false] && logged == old(logged) + {BitBlock(bmapstart, b)}
    {
      ok := used[b];
      used, logged := used[b := false], logged + {BitBlock(bmapstart, b)};
    }

    /** itrunc: frees every block of the file, each once, and nothing else. */
    method Itrunc(i: nat) returns (ok: bool)
      requires Valid() && i in inodes
      modifies `used, `inodes, `owner, `logged
      ensures LogsBits(bmapstart, old(used), used, old(logged) + {InodeBlock(inodestart, i)}, logged)
      ensures Valid() && ok && i in inodes && inodes[i].size == 0
      ensures (forall r: Ref | r.inum == i :: At(blocks, inodes, r) == 0) && inodes == old(inodes)[i := inodes[i]]
      ensures owner == map b | b in old(owner) && old(owner)[b].inum != i :: old(owner)[b]
      ensures forall j: nat, a: nat | j != i :: FileByte(blocks, inodes, j, a) == FileByte(blocks, old(inodes), j, a)
      ensures Leads(old(Now()), Now())
    {
      hide FsOk, At, Trimmed, LogsBits, Leads;
      TrimmedNone(blocks, inodes, owner, i);
      LogsBitsNone(bmapstart, used, logged);
      var k := 0;
      ok := true;
      while k < NDIRECT
        invariant 0 <= k <= NDIRECT && Valid() && ok && i in inodes
        invariant Trimmed(old(blocks), old(inodes), old(owner), blocks, inodes, owner, i)
        invariant forall bn: nat | bn < k :: At(blocks, inodes, Data(i, bn)) == 0
        invariant LogsBits(bmapstart, old(used), used, old(logged), logged)
      {
        AddrsAt(nmeta, used, blocks, inodes, owner, i, k);
        ghost var inodes1, owner1, used1 := inodes, owner, used;
        var b := inodes[i].addrs[k];
        if b != 0 {
          DirectDropped(nmeta, used, blocks, inodes, owner, i, k);
          LogsBitsStep(bmapstart, old(used), used, old(logged), logged, b);
          ok := Bfree(b);
          inodes, owner := SetAddr(inodes, i, k, 0), owner - {b};
          TrimStep(old(blocks), old(inodes), old(owner), blocks, inodes1, owner1, inodes, owner, blocks, i, b,
              Data(i, k));
        }
        k := k + 1;
      }
      ok := FreeIndirect(i, old(blocks), old(inodes), old(owner), old(used), old(logged));
      AllTrimmed(nmeta, used, old(blocks), old(inodes), old(owner), blocks, inodes, owner, i);
      inodes := inodes[i := inodes[i].(size := 0)];
      LogsBitsAlso(bmapstart, old(used), used, old(logged), logged, InodeBlock(inodestart, i));
      logged := logged + {InodeBlock(inodestart, i)};
      LeadsTruncate(nmeta, old(Now()), old(owner), Now(), owner, i);
    }

    /** itrunc's second half: the blocks listed in the indirect block, then the indirect block. */
    method FreeIndirect(i: nat, ghost blocks0: seq<Block>, ghost inodes0: Inodes, ghost owner0: Owners,
        ghost used0: seq<bool>, ghost logged0: set<nat>) returns (ok: bool)
      requires LogsBits(bmapstart, used0, used, logged0, logged)
      requires Valid() && i in inodes && Trimmed(blocks0, inodes0, owner0, blocks, inodes, owner, i)
      requires forall bn: nat | bn < NDIRECT :: At(blocks, inodes, Data(i, bn)) == 0
      modifies `used, `inodes, `owner, `logged
      ensures LogsBits(bmapstart, used0, used, logged0, logged)
      ensures Valid() && ok && i in inodes && Trimmed(blocks0, inodes0, owner0, blocks, inodes, owner, i)
      ensures forall r: Ref | r.inum == i :: At(blocks, inodes, r) == 0
    {
      hide FsOk, At, Trimmed, Cut, LogsBits;
      ok := true;
      AddrsAt(nmeta, used, blocks, inodes, owner, i, NDIRECT);
      var t := inodes[i].addrs[NDIRECT];
      if t != 0 {
        CutNone(nmeta, used, blocks, inodes, owner, i);
        var j := 0;
        while j < NINDIRECT
          invariant 0 <= j <= NINDIRECT && ok && t < |blocks| && inodes == old(inodes)
          invariant FsOk(nmeta, used, Cut(blocks, t, j), inodes, owner)
          invariant Trimmed(blocks0, inodes0, owner0, Cut(blocks, t, j), inodes, owner, i)
          invariant forall bn: nat | bn < NDIRECT + j :: At(Cut(blocks, t, j), inodes, Data(i, bn)) == 0
          invariant LogsBits(bmapstart, used0, used, logged0, logged)
        {
          ghost var owner1 := owner;
          ListedDropped(nmeta, used, blocks, inodes, owner, i, j);
          var b := WordAt(blocks, t, j);
          if b != 0 {
            LogsBitsStep(bmapstart, used0, used, logged0, logged, b);
            ok := Bfree(b);
            owner := owner - {b};
            TrimStep(blocks0, inodes0, owner0, Cut(blocks, t, j), inodes, owner1, inodes, owner, Cut(blocks, t, j + 1),
                i, b, Data(i, NDIRECT + j));
          }
          j := j + 1;
        }
        IndirectDropped(nmeta, used, blocks, inodes, owner, i, blocks0, inodes0, owner0);
        LogsBitsStep(bmapstart, used0, used, logged0, logged, t);
        ok := Bfree(t);
        inodes, owner := SetAddr(inodes, i, NDIRECT, 0), owner - {t};
      }
      Empty(nmeta, used, blocks, inodes, owner, i);
    }
  }

  /** Only references of inode i, and their records, have gone. */
  ghost predicate Trimmed(blocks0: seq<Block>, inodes0: Inodes, owner0: Owners, blocks: seq<Block>, inodes: Inodes,
      owner: Owners, i: nat) {
    && (forall r: Ref | r.inum != i :: At(blocks, inodes, r) == At(blocks0, inodes0, r))
    && (forall b | b in owner :: b in owner0 && owner[b] == owner0[b])
    && (forall b | b in owner0 && owner0[b].inum != i :: b in owner)
    && i in inodes && inodes == inodes0[i := inodes[i]]
  }

  lemma TrimmedNone(blocks: seq<Block>, inodes: Inodes, owner: Owners, i: nat)
    requires i in inodes
    ensures Trimmed(blocks, inodes, owner, blocks, inodes, owner, i)
  {
  }

  lemma TrimStep(blocks0: seq<Block>, inodes0: Inodes, owner0: Owners, blocks: seq<Block>, inodes: Inodes,
      owner: Owners, inodes': Inodes, owner': Owners, blocks': seq<Block>, i: nat, b: nat, r: Ref)
    requires Trimmed(blocks0, inodes0, owner0, blocks, inodes, owner, i) && r.inum == i && Owned(owner, b, r)
    requires Rerefers(blocks, inodes, blocks', inodes', r, 0) && owner' == owner - {b} && i in inodes'
    requires inodes' == inodes[i := inodes'[i]]
    ensures Trimmed(blocks0, inodes0, owner0, blocks', inodes', owner', i)
  {
    hide At;
  }

  lemma DirectDropped(nmeta: nat, used: seq<bool>, blocks: seq<Block>, inodes: Inodes, owner: Owners, i: nat, bn: nat)
    requires FsOk(nmeta, used, blocks, inodes, owner) && i in inodes && bn < NDIRECT
    requires At(blocks, inodes, Data(i, bn)) != 0
    ensures |inodes[i].addrs| == NDIRECT + 1
    ensures var b, inodes' := At(blocks, inodes, Data(i, bn)), SetAddr(inodes, i, bn, 0);
      && b < |used| && used[b] && Owned(owner, b, Data(i, bn))
      && Rerefers(blocks, inodes, blocks, inodes', Data(i, bn), 0)
      && FsOk(nmeta, used[b := false], blocks, inodes', owner - {b})
  {
    hide At;
    DirectRefers(blocks, inodes, i, bn, 0);
    DropRef(nmeta, used, blocks, inodes, owner, blocks, SetAddr(inodes, i, bn, 0), Data(i, bn));
  }

  /** The blocks as if the first n words of indirect block t were cleared. */
  ghost function Cut(blocks: seq<Block>, t: nat, n: nat): (cut: seq<Block>)
    requires t < |blocks|
    ensures |cut| == |blocks|
  {
    if blocks[t].Words? && n <= |blocks[t].words| then blocks[t := Words(Repeat(0, n) + blocks[t].words[n..])]
      else blocks
  }

  lemma CutNone(nmeta: nat, used: seq<bool>, blocks: seq<Block>, inodes: Inodes, owner: Owners, i: nat)
    requires FsOk(nmeta, used, blocks, inodes, owner) && i in inodes && At(blocks, inodes, Indirect(i)) != 0
    ensures At(blocks, inodes, Indirect(i)) < |blocks| && Cut(blocks, At(blocks, inodes, Indirect(i)), 0) == blocks
  {
    var t := At(blocks, inodes, Indirect(i));
    assert Owned(owner, t, Indirect(i));
    if blocks[t].Words? {
      assert Repeat(0, 0) + blocks[t].words[0..] == blocks[t].words;
    }
  }

  lemma CutWord(blocks: seq<Block>, t: nat, n: nat)
    requires t < |blocks| && n <= NINDIRECT && (blocks[t].Words? ==> |blocks[t].words| == NINDIRECT)
    ensures forall c: nat, k: nat ::
      WordAt(Cut(blocks, t, n), c, k) == if c == t && k < n then 0 else WordAt(blocks, c, k)
  {
  }

  lemma CutStep(blocks: seq<Block>, t: nat, n: nat)
    requires t < |blocks| && n < NINDIRECT && blocks[t].Words? && |blocks[t].words| == NINDIRECT
    ensures Cut(blocks, t, n)[t].Words? && |Cut(blocks, t, n)[t].words| == NINDIRECT
    ensures SetWord(Cut(blocks, t, n), t, n, 0) == Cut(blocks, t, n + 1)
    ensures WordAt(blocks, t, n) == 0 ==> Cut(blocks, t, n + 1) == Cut(blocks, t, n)
  {
    assert (Repeat(0, n) + blocks[t].words[n..])[n := 0] == Repeat(0, n + 1) + blocks[t].words[n + 1..];
    if WordAt(blocks, t, n) == 0 {
      assert Repeat(0, n) + blocks[t].words[n..] == Repeat(0, n + 1) + blocks[t].words[n + 1..];
    }
  }

  lemma ListedDropped(nmeta: nat, used: seq<bool>, blocks: seq<Block>, inodes: Inodes, owner: Owners, i: nat, j: nat)
    requires i in inodes && j < NINDIRECT && |inodes[i].addrs| == NDIRECT + 1 && 0 < inodes[i].addrs[NDIRECT] < |blocks|
    requires FsOk(nmeta, used, Cut(blocks, inodes[i].addrs[NDIRECT], j), inodes, owner)
    requires forall bn: nat | bn < NDIRECT + j :: At(Cut(blocks, inodes[i].addrs[NDIRECT], j), inodes, Data(i, bn)) == 0
    ensures var t, r := inodes[i].addrs[NDIRECT], Data(i, NDIRECT + j);
      var b := WordAt(blocks, t, j);
      && (forall bn: nat | bn <= NDIRECT + j :: At(Cut(blocks, t, j + 1), inodes, Data(i, bn)) == 0)
      && Rerefers(Cut(blocks, t, j), inodes, Cut(blocks, t, j + 1), inodes, r, 0)
      && if b == 0 then Cut(blocks, t, j + 1) == Cut(blocks, t, j)
         else
           && b < |used| && used[b] && Owned(owner, b, r)
           && FsOk(nmeta, used[b := false], Cut(blocks, t, j + 1), inodes, owner - {b})
  {
    hide At, SetWord, Cut;
    var t, r := inodes[i].addrs[NDIRECT], Data(i, NDIRECT + j);
    var cut := Cut(blocks, t, j);
    CutKind(nmeta, used, blocks, inodes, owner, i, j);
    AddrsAt(nmeta, used, cut, inodes, owner, i, NDIRECT + j);
    CutWord(blocks, t, j);
    if blocks[t].Words? {
      ListedRefers(cut, inodes, owner, i, j, 0);
      CutStep(blocks, t, j);
      if WordAt(blocks, t, j) != 0 {
        DropRef(nmeta, used, cut, inodes, owner, Cut(blocks, t, j + 1), inodes, r);
      }
    }
  }

  lemma CutKind(nmeta: nat, used: seq<bool>, blocks: seq<Block>, inodes: Inodes, owner: Owners, i: nat, n: nat)
    requires i in inodes && n <= NINDIRECT && |inodes[i].addrs| == NDIRECT + 1
    requires 0 < inodes[i].addrs[NDIRECT] < |blocks|
    requires FsOk(nmeta, used, Cut(blocks, inodes[i].addrs[NDIRECT], n), inodes, owner)
    ensures var t := inodes[i].addrs[NDIRECT];
      && Owned(owner, t, Indirect(i)) && |Cut(blocks, t, n)| == |blocks|
      && (blocks[t].Words? ==> |blocks[t].words| == NINDIRECT)
      && (!blocks[t].Words? ==> Cut(blocks, t, n) == blocks && (n < NINDIRECT ==> Cut(blocks, t, n + 1) == blocks))
      && (blocks[t].Words? ==> forall c: nat | c < |blocks| && c != t :: Cut(blocks, t, n)[c] == blocks[c])
  {
    var cut := Cut(blocks, inodes[i].addrs[NDIRECT], n);
    assert At(cut, inodes, Indirect(i)) == inodes[i].addrs[NDIRECT];
  }

  const TWO32: nat := 0x1_0000_0000

  /** readi's length: nothing past the end of the file, nothing when off + n wraps. */
  function Clip(size: nat, off: nat, n: nat): nat {
    if off > size || off + n >= TWO32 then 0 else Min(n, size - off)
  }

  function BytesOf(block: Block): seq<nat> {
    if block.Bytes? then block.bytes else Repeat(0, BSIZE)
  }

  /** Every file shows the same bytes, but for src at off of file i. */
  ghost predicate Wrote(blocks: seq<Block>, inodes: Inodes, blocks': seq<Block>, inodes': Inodes, i: nat, off: nat,
      src: seq<nat>) {
    forall j: nat, a: nat ::
      FileByte(blocks', inodes', j, a) == if j == i && off <= a < off + |src| then src[a - off]
      else FileByte(blocks, inodes, j, a)
  }

  /** The inodes are the same, and their sizes but for that of i. */
  ghost predicate SizeIs(inodes: Inodes, inodes': Inodes, i: nat, size: nat) {
    && (forall j :: j in inodes' <==> j in inodes)
    && (forall j | j in inodes :: j in inodes' && inodes'[j].size == if j == i then size else inodes[j].size)
  }

  ghost predicate Shows(blocks: seq<Block>, inodes: Inodes, i: nat, off: nat, dst: seq<nat>) {
    forall a: nat | off <= a < off + |dst| :: dst[a - off] == FileByte(blocks, inodes, i, a)
  }

  lemma ShowsNone(blocks: seq<Block>, inodes: Inodes, i: nat, off: nat)
    ensures Shows(blocks, inodes, i, off, [])
  {
  }

  ghost predicate NoHole(blocks: seq<Block>, inodes: Inodes, i: nat, off: nat, len: nat) {
    forall a: nat | off <= a < off + len :: HasBlock(blocks, inodes, i, a)
  }

  predicate HasBlock(blocks: seq<Block>, inodes: Inodes, i: nat, a: nat) {
    At(blocks, inodes, Data(i, a / BSIZE)) != 0
  }

  /** The first n bytes of a file. */
  ghost function Prefix(blocks: seq<Block>, inodes: Inodes, i: nat, n: nat): (c: seq<nat>)
    ensures |c| == n && forall a | 0 <= a < n :: c[a] == FileByte(blocks, inodes, i, a)
  {
    if n == 0 then [] else Prefix(blocks, inodes, i, n - 1) + [FileByte(blocks, inodes, i, n - 1)]
  }

  ghost function Contents(blocks: seq<Block>, inodes: Inodes, i: nat): seq<nat>
    requires i in inodes
  {
    Prefix(blocks, inodes, i, inodes[i].size)
  }

  /** What Writei's contract means for the file as a sequence of bytes. */
  lemma WrittenContents(blocks: seq<Block>, inodes: Inodes, blocks': seq<Block>, inodes': Inodes, i: nat, off: nat,
      src: seq<nat>)
    requires i in inodes && off <= inodes[i].size && Wrote(blocks, inodes, blocks', inodes', i, off, src)
    requires SizeIs(inodes, inodes', i, Max(inodes[i].size, off + |src|))
    ensures i in inodes'
    ensures var c := Contents(blocks, inodes, i);
      Contents(blocks', inodes', i) == c[..off] + src + if off + |src| < |c| then c[off + |src|..] else []
    ensures forall j: nat | j in inodes && j != i ::
      j in inodes' && Contents(blocks', inodes', j) == Contents(blocks, inodes, j)
  {
    hide FileByte;
  }

  /** What Readi's contract means for it. */
  lemma ReadContents(blocks: seq<Block>, inodes: Inodes, i: nat, off: nat, n: nat, dst: seq<nat>)
    requires i in inodes && off + n < TWO32 && |dst| == Clip(inodes[i].size, off, n)
    requires Shows(blocks, inodes, i, off, dst)
    ensures var c := Contents(blocks, inodes, i);
      dst == if off > |c| then [] else c[off..Min(off + n, |c|)]
  {
    hide FileByte;
  }

  lemma SizeBound(nmeta: nat, used: seq<bool>, blocks: seq<Block>, inodes: Inodes, owner: Owners, i: nat)
    requires FsOk(nmeta, used, blocks, inodes, owner) && i in inodes
    ensures inodes[i].size <= MAXFILE * BSIZE
  {
  }

  lemma SameTrans(blocks: seq<Block>, inodes: Inodes, blocks1: seq<Block>, inodes1: Inodes, blocks2: seq<Block>,
      inodes2: Inodes)
    requires SameFiles(blocks, inodes, blocks1, inodes1) && Stays(blocks, inodes, blocks1, inodes1)
    requires SameFiles(blocks1, inodes1, blocks2, inodes2) && Stays(blocks1, inodes1, blocks2, inodes2)
    ensures SameFiles(blocks, inodes, blocks2, inodes2) && Stays(blocks, inodes, blocks2, inodes2)
    ensures forall i :: i in inodes2 <==> i in inodes1
  {
    hide At, FileByte;
  }

  lemma WroteNone(blocks: seq<Block>, inodes: Inodes, i: nat, off: nat)
    requires i in inodes
    ensures Wrote(blocks, inodes, blocks, inodes, i, off, []) && SizeIs(inodes, inodes, i, inodes[i].size)
  {
  }

  lemma BmapStep(blocks: seq<Block>, inodes: Inodes, blocks1: seq<Block>, inodes1: Inodes, blocks2: seq<Block>,
      inodes2: Inodes, i: nat, off: nat, src: seq<nat>)
    requires i in inodes && Wrote(blocks, inodes, blocks1, inodes1, i, off, src)
    requires SizeIs(inodes, inodes1, i, inodes[i].size) && Stays(blocks, inodes, blocks1, inodes1)
    requires SameFiles(blocks1, inodes1, blocks2, inodes2) && Stays(blocks1, inodes1, blocks2, inodes2)
    ensures Wrote(blocks, inodes, blocks2, inodes2, i, off, src) && SizeIs(inodes, inodes2, i, inodes[i].size)
    ensures Stays(blocks, inodes, blocks2, inodes2)
    ensures i in inodes2
  {
    hide At, FileByte;
  }

  /** Storing bytes in the block of (i, bn) changes no reference, and shows in that block of that file. */
  lemma StoreBlock(nmeta: nat, used: seq<bool>, blocks: seq<Block>, inodes: Inodes, owner: Owners, i: nat, bn: nat,
      bytes: seq<nat>)
    requires FsOk(nmeta, used, blocks, inodes, owner) && At(blocks, inodes, Data(i, bn)) != 0 && |bytes| == BSIZE
    ensures At(blocks, inodes, Data(i, bn)) < |blocks|
    ensures var blocks' := blocks[At(blocks, inodes, Data(i, bn)) := Bytes(bytes)];
      && FsOk(nmeta, used, blocks', inodes, owner) && (forall q: Ref :: At(blocks', inodes, q) == At(blocks, inodes, q))
      && (forall j: nat, a: nat ::
        FileByte(blocks', inodes, j, a) == if j == i && a / BSIZE == bn then bytes[a % BSIZE]
        else FileByte(blocks, inodes, j, a))
  {
    var b := At(blocks, inodes, Data(i, bn));
    assert Owned(owner, b, Data(i, bn));
    var blocks' := blocks[b := Bytes(bytes)];
    forall q: Ref ensures At(blocks', inodes, q) == At(blocks, inodes, q) {
      assert At(blocks, inodes, Indirect(q.inum)) != 0 ==>
        Owned(owner, At(blocks, inodes, Indirect(q.inum)), Indirect(q.inum));
    }
    SameRefs(blocks, inodes, owner, blocks');
    StoreShows(blocks, inodes, owner, blocks', i, bn, bytes);
  }

  lemma StoreShows(blocks: seq<Block>, inodes: Inodes, owner: Owners, blocks': seq<Block>, i: nat, bn: nat,
      bytes: seq<nat>)
    requires RefsOk(blocks, inodes, owner) && At(blocks, inodes, Data(i, bn)) != 0 && |bytes| == BSIZE
    requires At(blocks, inodes, Data(i, bn)) < |blocks|
    requires blocks' == blocks[At(blocks, inodes, Data(i, bn)) := Bytes(bytes)]
    requires forall q: Ref :: At(blocks', inodes, q) == At(blocks, inodes, q)
    ensures forall j: nat, a: nat ::
      FileByte(blocks', inodes, j, a) == if j == i && a / BSIZE == bn then bytes[a % BSIZE]
      else FileByte(blocks, inodes, j, a)
  {
    hide At;
    forall j: nat, a: nat
      ensures FileByte(blocks', inodes, j, a) == if j == i && a / BSIZE == bn then bytes[a % BSIZE]
        else FileByte(blocks, inodes, j, a)
    {
      var q := Data(j, a / BSIZE);
      assert At(blocks, inodes, q) != 0 ==> Owned(owner, At(blocks, inodes, q), q);
      assert Owned(owner, At(blocks, inodes, Data(i, bn)), Data(i, bn));
    }
  }

  lemma WriteStep(nmeta: nat, used: seq<bool>, blocks0: seq<Block>, inodes0: Inodes, blocks: seq<Block>,
      inodes: Inodes, owner: Owners,
                  i: nat, off: nat, src: seq<nat>, tot: nat, m: nat)
    requires FsOk(nmeta, used, blocks, inodes, owner) && tot < |src|
    requires At(blocks, inodes, Data(i, (off + tot) / BSIZE)) != 0
    requires m == Min(|src| - tot, BSIZE - (off + tot) % BSIZE)
    requires Wrote(blocks0, inodes0, blocks, inodes, i, off, src[..tot]) && Stays(blocks0, inodes0, blocks, inodes)
    ensures var addr := At(blocks, inodes, Data(i, (off + tot) / BSIZE));
      && addr < |blocks| && |BytesOf(blocks[addr])| == BSIZE
      && var blocks' := blocks[addr := Bytes(Patch(BytesOf(blocks[addr]), (off + tot) % BSIZE, src[tot..tot + m]))];
         && FsOk(nmeta, used, blocks', inodes, owner) && Stays(blocks0, inodes0, blocks', inodes)
         && Wrote(blocks0, inodes0, blocks', inodes, i, off, src[..tot + m])
  {
    hide At, FileByte;
    var bn := (off + tot) / BSIZE;
    BlockBytes(nmeta, used, blocks, inodes, owner, i, bn);
    var addr := At(blocks, inodes, Data(i, bn));
    var bytes := Patch(BytesOf(blocks[addr]), (off + tot) % BSIZE, src[tot..tot + m]);
    StoreBlock(nmeta, used, blocks, inodes, owner, i, bn, bytes);
    var blocks' := blocks[addr := Bytes(bytes)];
    forall j: nat, a: nat
      ensures FileByte(blocks', inodes, j, a) == if j == i && off <= a < off + |src[..tot + m]|
        then src[..tot + m][a - off] else FileByte(blocks0, inodes0, j, a)
    {
      assert FileByte(blocks, inodes, j, a) == if j == i && off <= a < off + tot then src[..tot][a - off]
        else FileByte(blocks0, inodes0, j, a);
      if j == i && a / BSIZE == bn {
        assert a - a % BSIZE == off + tot - (off + tot) % BSIZE;
        assert BytesOf(blocks[addr])[a % BSIZE] == FileByte(blocks, inodes, i, a);
      }
    }
  }

  lemma BlockBytes(nmeta: nat, used: seq<bool>, blocks: seq<Block>, inodes: Inodes, owner: Owners, i: nat, bn: nat)
    requires FsOk(nmeta, used, blocks, inodes, owner) && At(blocks, inodes, Data(i, bn)) != 0
    ensures var addr := At(blocks, inodes, Data(i, bn));
      addr < |blocks| && |BytesOf(blocks[addr])| == BSIZE && forall a: nat | a / BSIZE == bn ::
        BytesOf(blocks[addr])[a % BSIZE] == FileByte(blocks, inodes, i, a)
  {
    hide At;
    assert Owned(owner, At(blocks, inodes, Data(i, bn)), Data(i, bn));
  }

  lemma Resize(nmeta: nat, used: seq<bool>, blocks0: seq<Block>, inodes0: Inodes, blocks: seq<Block>, inodes: Inodes,
      owner: Owners, i: nat, off: nat, src: seq<nat>, size: nat)
    requires FsOk(nmeta, used, blocks, inodes, owner) && i in inodes0 && i in inodes && size <= MAXFILE * BSIZE
    requires Wrote(blocks0, inodes0, blocks, inodes, i, off, src) && SizeIs(inodes0, inodes, i, inodes0[i].size)
    requires Stays(blocks0, inodes0, blocks, inodes)
    ensures inodes[i].size == inodes0[i].size
    ensures var inodes' := inodes[i := inodes[i].(size := size)];
      && FsOk(nmeta, used, blocks, inodes', owner) && Wrote(blocks0, inodes0, blocks, inodes', i, off, src)
      && SizeIs(inodes0, inodes', i, size)
      && Stays(blocks0, inodes0, blocks, inodes')
  {
    var inodes' := inodes[i := inodes[i].(size := size)];
    forall q: Ref ensures At(blocks, inodes', q) == At(blocks, inodes, q) {
    }
    ResizeKeeps(blocks, inodes, inodes', owner);
  }

  lemma ResizeKeeps(blocks: seq<Block>, inodes: Inodes, inodes': Inodes, owner: Owners)
    requires forall q: Ref :: At(blocks, inodes', q) == At(blocks, inodes, q)
    ensures RefsOk(blocks, inodes, owner) ==> RefsOk(blocks, inodes', owner)
    ensures forall j: nat, a: nat :: FileByte(blocks, inodes', j, a) == FileByte(blocks, inodes, j, a)
  {
    hide At;
  }

  lemma ReadStep(nmeta: nat, used: seq<bool>, blocks0: seq<Block>, inodes0: Inodes, blocks: seq<Block>,
      inodes: Inodes, owner: Owners, i: nat, off: nat, dst: seq<nat>, m: nat)
    requires FsOk(nmeta, used, blocks, inodes, owner) && SameFiles(blocks0, inodes0, blocks, inodes)
    requires Shows(blocks0, inodes0, i, off, dst)
    requires At(blocks, inodes, Data(i, (off + |dst|) / BSIZE)) != 0 && m <= BSIZE - (off + |dst|) % BSIZE
    ensures var addr, o := At(blocks, inodes, Data(i, (off + |dst|) / BSIZE)), (off + |dst|) % BSIZE;
      addr < |blocks| && |BytesOf(blocks[addr])| == BSIZE &&
        Shows(blocks0, inodes0, i, off, dst + BytesOf(blocks[addr])[o..o + m])
  {
    hide At, FileByte;
    var addr, o := At(blocks, inodes, Data(i, (off + |dst|) / BSIZE)), (off + |dst|) % BSIZE;
    BlockBytes(nmeta, used, blocks, inodes, owner, i, (off + |dst|) / BSIZE);
    forall a: nat | off + |dst| <= a < off + |dst| + m
      ensures BytesOf(blocks[addr])[o..o + m][a - off - |dst|] == FileByte(blocks0, inodes0, i, a)
    {
      assert a / BSIZE == (off + |dst|) / BSIZE && a % BSIZE == o + (a - off - |dst|);
      assert FileByte(blocks, inodes, i, a) == FileByte(blocks0, inodes0, i, a);
    }
  }

  lemma Unchanged(blocks: seq<Block>, inodes: Inodes)
    ensures SameFiles(blocks, inodes, blocks, inodes) && Stays(blocks, inodes, blocks, inodes)
  {
  }

  /** What the code reads is the reference. */
  lemma AddrsAt(nmeta: nat, used: seq<bool>, blocks: seq<Block>, inodes: Inodes, owner: Owners, i: nat, bn: nat)
    requires FsOk(nmeta, used, blocks, inodes, owner) && i in inodes && bn < MAXFILE
    ensures |inodes[i].addrs| == NDIRECT + 1 && At(blocks, inodes, Indirect(i)) == inodes[i].addrs[NDIRECT]
    ensures bn < NDIRECT ==> At(blocks, inodes, Data(i, bn)) == inodes[i].addrs[bn]
    ensures bn >= NDIRECT ==>
      At(blocks, inodes, Data(i, bn)) == if inodes[i].addrs[NDIRECT] == 0 then 0
      else WordAt(blocks, inodes[i].addrs[NDIRECT], bn - NDIRECT)
    ensures |blocks| == |used| && |used| > 0 && used[0]
  {
  }

  /** A cleared block that nobody refers to changes no reference. */
  lemma ClearFree(blocks: seq<Block>, inodes: Inodes, owner: Owners, b: nat)
    requires RefsOk(blocks, inodes, owner) && InodesOk(inodes) && b < |blocks| && b !in owner
    ensures forall q: Ref :: At(blocks[b := Zero], inodes, q) == At(blocks, inodes, q)
    ensures RefsOk(blocks[b := Zero], inodes, owner)
  {
    var blocks' := blocks[b := Zero];
    forall q: Ref ensures At(blocks', inodes, q) == At(blocks, inodes, q) {
      assert At(blocks, inodes, Indirect(q.inum)) != 0 ==>
        Owned(owner, At(blocks, inodes, Indirect(q.inum)), Indirect(q.inum));
    }
    SameRefs(blocks, inodes, owner, blocks');
  }

  lemma SameRefs(blocks: seq<Block>, inodes: Inodes, owner: Owners, blocks': seq<Block>)
    requires RefsOk(blocks, inodes, owner) && |blocks'| == |blocks|
    requires forall q: Ref :: At(blocks', inodes, q) == At(blocks, inodes, q)
    requires forall c | c in owner :: c < |blocks| && KindOk(blocks'[c], owner[c])
    ensures RefsOk(blocks', inodes, owner)
  {
    hide At;
  }

  lemma DirectAdded(nmeta: nat, used: seq<bool>, blocks: seq<Block>, inodes: Inodes, owner: Owners, i: nat, bn: nat,
      b: nat)
    requires FsOk(nmeta, used, blocks, inodes, owner) && i in inodes && bn < NDIRECT
    requires At(blocks, inodes, Data(i, bn)) == 0
    requires b < |used| && !used[b]
    ensures |inodes[i].addrs| == NDIRECT + 1
    ensures var blocks', inodes' := blocks[b := Zero], SetAddr(inodes, i, bn, b);
      && FsOk(nmeta, used[b := true], blocks', inodes', owner[b := Data(i, bn)])
      && SameFiles(blocks, inodes, blocks', inodes') && Stays(blocks, inodes, blocks', inodes')
      && At(blocks', inodes', Data(i, bn)) == b
  {
    hide At, SameFiles, Stays;
    var blocks', inodes' := blocks[b := Zero], SetAddr(inodes, i, bn, b);
    ClearFree(blocks, inodes, owner, b);
    DirectRefers(blocks', inodes, i, bn, b);
    AddRef(nmeta, used, blocks, inodes, owner, blocks', inodes', Data(i, bn), b);
    AddKeepsFiles(blocks, inodes, owner, blocks', inodes', Data(i, bn), b);
  }

  lemma IndirectAdded(nmeta: nat, used: seq<bool>, blocks: seq<Block>, inodes: Inodes, owner: Owners, i: nat, b: nat)
    requires FsOk(nmeta, used, blocks, inodes, owner) && i in inodes && At(blocks, inodes, Indirect(i)) == 0
    requires b < |used| && !used[b]
    ensures |inodes[i].addrs| == NDIRECT + 1
    ensures var blocks', inodes' := blocks[b := Zero], SetAddr(inodes, i, NDIRECT, b);
      && FsOk(nmeta, used[b := true], blocks', inodes', owner[b := Indirect(i)])
      && SameFiles(blocks, inodes, blocks', inodes') && Stays(blocks, inodes, blocks', inodes')
      && At(blocks', inodes', Indirect(i)) == b
  {
    hide SameFiles, Stays;
    var blocks', inodes' := blocks[b := Zero], SetAddr(inodes, i, NDIRECT, b);
    ClearFree(blocks, inodes, owner, b);
    IndirectRefers(blocks', inodes, i, b);
    AddRef(nmeta, used, blocks, inodes, owner, blocks', inodes', Indirect(i), b);
    AddKeepsFiles(blocks, inodes, owner, blocks', inodes', Indirect(i), b);
  }

  lemma ListedAdded(nmeta: nat, used: seq<bool>, blocks: seq<Block>, inodes: Inodes, owner: Owners, i: nat, bn: nat,
      b: nat, blocks0: seq<Block>, inodes0: Inodes)
    requires FsOk(nmeta, used, blocks, inodes, owner) && i in inodes && NDIRECT <= bn < MAXFILE
    requires At(blocks, inodes, Data(i, bn)) == 0
    requires At(blocks, inodes, Indirect(i)) != 0 && b < |used| && !used[b]
    requires SameFiles(blocks0, inodes0, blocks, inodes) && Stays(blocks0, inodes0, blocks, inodes)
    ensures var t := At(blocks, inodes, Indirect(i));
      && t < |blocks| && KindOk(blocks[b := Zero][t], Indirect(i))
      && var blocks' := SetWord(blocks[b := Zero], t, bn - NDIRECT, b);
         && FsOk(nmeta, used[b := true], blocks', inodes, owner[b := Data(i, bn)])
         && SameFiles(blocks0, inodes0, blocks', inodes) && Stays(blocks0, inodes0, blocks', inodes)
         && At(blocks', inodes, Data(i, bn)) == b
  {
    hide At, FileByte;
    var r, t, blocks1 := Data(i, bn), At(blocks, inodes, Indirect(i)), blocks[b := Zero];
    ClearFree(blocks, inodes, owner, b);
    AddrsAt(nmeta, used, blocks, inodes, owner, i, bn);
    ListedRefers(blocks1, inodes, owner, i, bn - NDIRECT, b);
    assert Owned(owner, t, Indirect(i));
    var blocks' := SetWord(blocks1, t, bn - NDIRECT, b);
    AddRef(nmeta, used, blocks, inodes, owner, blocks', inodes, r, b);
    AddKeepsFiles(blocks, inodes, owner, blocks', inodes, r, b);
  }

  lemma IndirectDropped(nmeta: nat, used: seq<bool>, blocks: seq<Block>, inodes: Inodes, owner: Owners, i: nat,
      blocks0: seq<Block>, inodes0: Inodes, owner0: Owners)
    requires i in inodes && |inodes[i].addrs| == NDIRECT + 1 && 0 < inodes[i].addrs[NDIRECT] < |blocks|
    requires var t := inodes[i].addrs[NDIRECT];
      && FsOk(nmeta, used, Cut(blocks, t, NINDIRECT), inodes, owner)
      && Trimmed(blocks0, inodes0, owner0, Cut(blocks, t, NINDIRECT), inodes, owner, i)
      && forall bn: nat | bn < MAXFILE :: At(Cut(blocks, t, NINDIRECT), inodes, Data(i, bn)) == 0
    ensures var t, inodes' := inodes[i].addrs[NDIRECT], SetAddr(inodes, i, NDIRECT, 0);
      && t < |used| && used[t] && FsOk(nmeta, used[t := false], blocks, inodes', owner - {t})
      && Trimmed(blocks0, inodes0, owner0, blocks, inodes', owner - {t}, i)
      && (forall bn: nat | bn < MAXFILE :: At(blocks, inodes', Data(i, bn)) == 0) &&
        At(blocks, inodes', Indirect(i)) == 0
  {
    hide At, Cut;
    var t, inodes' := inodes[i].addrs[NDIRECT], SetAddr(inodes, i, NDIRECT, 0);
    var cut := Cut(blocks, t, NINDIRECT);
    CutKind(nmeta, used, blocks, inodes, owner, i, NINDIRECT);
    AddrsAt(nmeta, used, cut, inodes, owner, i, NDIRECT);
    CutWord(blocks, t, NINDIRECT);
    assert forall k: nat | k < NINDIRECT :: WordAt(cut, t, k) == 0;
    IndirectRefers(cut, inodes, i, 0);
    DropRef(nmeta, used, cut, inodes, owner, cut, inodes', Indirect(i));
    TrimStep(blocks0, inodes0, owner0, cut, inodes, owner, inodes', owner - {t}, cut, i, t, Indirect(i));
    Uncut(cut, blocks, inodes', owner - {t}, t);
  }

  /** The content of a block that nobody refers to does not matter. */
  lemma Uncut(cut: seq<Block>, blocks: seq<Block>, inodes: Inodes, owner: Owners, t: nat)
    requires RefsOk(cut, inodes, owner) && InodesOk(inodes) && t !in owner && |cut| == |blocks|
    requires forall c: nat | c < |blocks| && c != t :: cut[c] == blocks[c]
    ensures RefsOk(blocks, inodes, owner) && forall q: Ref :: At(blocks, inodes, q) == At(cut, inodes, q)
  {
    forall q: Ref ensures At(blocks, inodes, q) == At(cut, inodes, q) {
      assert At(cut, inodes, Indirect(q.inum)) != 0 ==>
        Owned(owner, At(cut, inodes, Indirect(q.inum)), Indirect(q.inum));
    }
    SameRefs(cut, inodes, owner, blocks);
  }

  lemma Empty(nmeta: nat, used: seq<bool>, blocks: seq<Block>, inodes: Inodes, owner: Owners, i: nat)
    requires FsOk(nmeta, used, blocks, inodes, owner) && i in inodes && At(blocks, inodes, Indirect(i)) == 0
    requires forall bn: nat | bn < NDIRECT :: At(blocks, inodes, Data(i, bn)) == 0
    ensures forall r: Ref | r.inum == i :: At(blocks, inodes, r) == 0
  {
  }

  lemma AllTrimmed(nmeta: nat, used: seq<bool>, blocks0: seq<Block>, inodes0: Inodes, owner0: Owners,
      blocks: seq<Block>, inodes: Inodes, owner: Owners, i: nat)
    requires FsOk(nmeta, used, blocks, inodes, owner) && Trimmed(blocks0, inodes0, owner0, blocks, inodes, owner, i)
    requires blocks == blocks0
    requires forall r: Ref | r.inum == i :: At(blocks, inodes, r) == 0
    ensures var inodes' := inodes[i := inodes[i].(size := 0)];
      && FsOk(nmeta, used, blocks, inodes', owner) && (forall r: Ref | r.inum == i :: At(blocks, inodes', r) == 0)
      && owner == (map b | b in owner0 && owner0[b].inum != i :: owner0[b]) && inodes' == inodes0[i := inodes'[i]]
      && forall j: nat, a: nat | j != i :: FileByte(blocks, inodes', j, a) == FileByte(blocks0, inodes0, j, a)
  {
    var inodes' := inodes[i := inodes[i].(size := 0)];
    forall q: Ref ensures At(blocks, inodes', q) == At(blocks, inodes, q) {
    }
    ResizeKeeps(blocks, inodes, inodes', owner);
    hide At;
  }

  // A write that faults.

  /** The same data. */
  predicate Alike(x: Block, y: Block) {
    x == y || (!x.Words? && !y.Words? && BytesOf(x) == BytesOf(y))
  }

  /** Every block whose data changed is logged. */
  ghost predicate AllLogged(v: View, w: View) {
    forall b | 0 <= b < |v.blocks| && b < |w.blocks| && !Alike(v.blocks[b], w.blocks[b]) :: b in w.logged
  }

  /** A block that the file had before is logged only if it was, and only it may have changed without. */
  lemma SpillInPlace(bmapstart: nat, v: View, inodes0: Inodes, w: View, inodes: Inodes, i: nat, off: nat, r: nat,
      a: nat)
    requires SpillLogs(bmapstart, v, inodes0, w, inodes, i, off, r) && Stays(v.blocks, inodes0, w.blocks, inodes)
    requires a == At(v.blocks, inodes0, Data(i, (off + r) / BSIZE)) != 0 && !IsBitBlock(bmapstart, |v.used|, a)
    ensures |v.blocks| == |w.blocks| && |v.used| == |w.used| && (a in w.logged <==> a in v.logged)
    ensures forall b | 0 <= b < |v.blocks| && b != a && v.blocks[b] != w.blocks[b] :: b in w.logged
  {
    hide At;
    StaysAt(v.blocks, inodes0, w.blocks, inodes, Data(i, (off + r) / BSIZE));
    var was :| LogsBut(bmapstart, v, w, a, was, i, off / BSIZE, (off + r) / BSIZE);
    assert forall b | 0 <= b < |w.blocks| && b != a :: w.blocks[a := was][b] == w.blocks[b];
  }

  /** Of the block where a write of n bytes stops, byte j is one of those after the whole blocks, or not written. */
  lemma SpillPlace(off: nat, n: nat, j: nat)
    requires j < BSIZE && WholeBlocks(off, n) < n
    ensures var a := (off + WholeBlocks(off, n)) / BSIZE * BSIZE + j;
      && a / BSIZE == (off + WholeBlocks(off, n)) / BSIZE && a % BSIZE == j
      && (off <= a < off + n ==> off + WholeBlocks(off, n) <= a)
  {
  }

  lemma SpillSpan(off: nat, n: nat, k: nat)
    requires WholeBlocks(off, n) <= k < n
    ensures (off + k) / BSIZE == (off + WholeBlocks(off, n)) / BSIZE
  {
  }

  /** The data of that block changed exactly if the bytes that could be read differ from those of the file. */
  lemma SpillAlike(nmeta: nat, v: View, inodes0: Inodes, w: View, inodes: Inodes, i: nat, off: nat, src: seq<nat>,
      a: nat)
    requires FsOk(nmeta, v.used, v.blocks, inodes0, v.owner) && FsOk(nmeta, w.used, w.blocks, inodes, w.owner)
    requires Wrote(v.blocks, inodes0, w.blocks, inodes, i, off, src) && Stays(v.blocks, inodes0, w.blocks, inodes)
    requires WholeBlocks(off, |src|) < |src|
    requires a == At(v.blocks, inodes0, Data(i, (off + WholeBlocks(off, |src|)) / BSIZE)) != 0
    ensures a < |v.blocks| && a < |w.blocks|
    ensures Alike(v.blocks[a], w.blocks[a]) <==>
      forall k | WholeBlocks(off, |src|) <= k < |src| :: src[k] == FileByte(v.blocks, inodes0, i, off + k)
  {
    hide At, FileByte, WholeBlocks, FsOk, Wrote, Stays;
    var r := WholeBlocks(off, |src|);
    var bn := (off + r) / BSIZE;
    StaysAt(v.blocks, inodes0, w.blocks, inodes, Data(i, bn));
    DataKind(nmeta, v.used, v.blocks, inodes0, v.owner, i, bn);
    DataKind(nmeta, w.used, w.blocks, inodes, w.owner, i, bn);
    BlockBytes(nmeta, v.used, v.blocks, inodes0, v.owner, i, bn);
    BlockBytes(nmeta, w.used, w.blocks, inodes, w.owner, i, bn);
    var x, y := BytesOf(v.blocks[a]), BytesOf(w.blocks[a]);
    if Alike(v.blocks[a], w.blocks[a]) {
      forall k | r <= k < |src| ensures src[k] == FileByte(v.blocks, inodes0, i, off + k) {
        SpillSpan(off, |src|, k);
        WroteAt(v.blocks, inodes0, w.blocks, inodes, i, off, src, off + k);
        assert x[(off + k) % BSIZE] == y[(off + k) % BSIZE];
      }
    }
    if forall k | r <= k < |src| :: src[k] == FileByte(v.blocks, inodes0, i, off + k) {
      forall j | 0 <= j < BSIZE ensures x[j] == y[j] {
        SpillPlace(off, |src|, j);
        WroteAt(v.blocks, inodes0, w.blocks, inodes, i, off, src, bn * BSIZE + j);
      }
      assert x == y;
    }
  }

  lemma DataKind(nmeta: nat, used: seq<bool>, blocks: seq<Block>, inodes: Inodes, owner: Owners, i: nat, bn: nat)
    requires FsOk(nmeta, used, blocks, inodes, owner) && At(blocks, inodes, Data(i, bn)) != 0
    ensures At(blocks, inodes, Data(i, bn)) < |blocks| && !blocks[At(blocks, inodes, Data(i, bn))].Words?
  {
    hide At;
    OwnsAt(nmeta, used, blocks, inodes, owner, Data(i, bn));
  }

  lemma WroteAt(blocks: seq<Block>, inodes: Inodes, blocks': seq<Block>, inodes': Inodes, i: nat, off: nat,
      src: seq<nat>,
      a: nat)
    requires Wrote(blocks, inodes, blocks', inodes', i, off, src)
    ensures FileByte(blocks', inodes', i, a) == if off <= a < off + |src| then src[a - off]
      else FileByte(blocks, inodes, i, a)
  {
    hide FileByte;
  }

  /** Exactly when a write that faults has logged all that it changed: the file did not have the block where it
      stopped, or that block was in the log already, or the bytes that could be read are those of the file. */
  lemma SpillIsLogged(bmapstart: nat, nmeta: nat, v: View, inodes0: Inodes, w: View, inodes: Inodes, i: nat, off: nat,
      src: seq<nat>, a: nat)
    requires FsOk(nmeta, v.used, v.blocks, inodes0, v.owner) && FsOk(nmeta, w.used, w.blocks, inodes, w.owner)
    requires Wrote(v.blocks, inodes0, w.blocks, inodes, i, off, src) && Stays(v.blocks, inodes0, w.blocks, inodes)
    requires WholeBlocks(off, |src|) < |src|
    requires SpillLogs(bmapstart, v, inodes0, w, inodes, i, off, WholeBlocks(off, |src|))
    requires a == At(v.blocks, inodes0, Data(i, (off + WholeBlocks(off, |src|)) / BSIZE))
    requires !IsBitBlock(bmapstart, |v.used|, a)
    ensures AllLogged(v, w) <==>
      || a == 0 || a in v.logged
      || forall k | WholeBlocks(off, |src|) <= k < |src| :: src[k] == FileByte(v.blocks, inodes0, i, off + k)
  {
    hide FsOk, Wrote, Stays, At, WholeBlocks, FileByte, Alike;
    if a != 0 {
      assert forall x :: Alike(x, x) by { AlikeSame(); }
      SpillAlike(nmeta, v, inodes0, w, inodes, i, off, src, a);
      SpillInPlace(bmapstart, v, inodes0, w, inodes, i, off, WholeBlocks(off, |src|), a);
    } else {
      AlikeSame();
    }
  }

  lemma AlikeSame()
    ensures forall x :: Alike(x, x)
  {
  }

  lemma LeakyOk()
    ensures FsOk(4, Repeat(true, 5), Repeat(Zero, 5), map[1 := LEAKY], map[4 := Data(1, 0)])
    ensures At(Repeat(Zero, 5), map[1 := LEAKY], Data(1, 0)) == 4
  {
  }

  /** A file of one block of zeros: of two bytes for it only the first can be read. Nothing is written, says writei,
      but the file shows the byte, in a block that is not logged. */
  method FaultLeaks() returns (fs: Fs, r: int)
    ensures fresh(fs) && r == 0 && FileByte(fs.blocks, fs.inodes, 1, 0) == 1
    ensures At(fs.blocks, fs.inodes, Data(1, 0)) == 4 && 4 !in fs.logged
  {
    hide Wrote, SpillLogs, FsOk, Stays, At, FileByte, Leads, Logs, SizeIs;
    LeakyOk();
    fs := new Fs(4, 2, 3, Repeat(true, 5), Repeat(Zero, 5), map[1 := LEAKY], map[4 := Data(1, 0)]);
    ghost var v, inodes0 := fs.Seen(), fs.inodes;
    ghost var spill;
    r, spill := fs.Writei(1, 0, [1, 1], 1);
    assert [1, 1][..r + spill] == [1];
    WroteAt(v.blocks, inodes0, fs.blocks, fs.inodes, 1, 0, [1], 0);
    StaysAt(v.blocks, inodes0, fs.blocks, fs.inodes, Data(1, 0));
    SpillInPlace(2, v.(logged := v.logged + {InodeBlock(3, 1)}), inodes0, fs.Seen(), fs.inodes, 1, 0, 0, 4);
  }

  const LEAKY: Inode := Inode([4] + Repeat(0, NDIRECT), 2)
}
