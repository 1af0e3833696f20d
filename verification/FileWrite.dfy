/**
 filewrite of kernel/file.c on an inode: a long write is cut into chunks, each its own log
 transaction, so that no transaction outgrows its reservation.
 */
module FileWrite {
  import opened Common
  import opened FileSystem
  import Reservation

  /** Bytes in a chunk: room is left for the inode, the indirect block, and two unaligned ends. */
  const CHUNK: nat := (Reservation.MAXOPBLOCKS - 1 - 1 - 2) / 2 * BSIZE

  /** Bitmap blocks of a disk. */
  function BitBlocks(size: nat): nat {
    (size + BPB - 1) / BPB
  }

  /** Log entries of a chunk: four data blocks, the indirect block, the inode, and the bitmap. */
  function ChunkEntries(size: nat): nat {
    6 + BitBlocks(size)
  }

  /** The references of a file name different blocks, and each block once. */
  lemma {:induction false} MineCard(nmeta: nat, v: View, inodes: Inodes, i: nat, lo: nat, n: nat, s: set<nat>)
    requires FsOk(nmeta, v.used, v.blocks, inodes, v.owner) && forall b | b in s :: Mine(v.owner, i, lo, lo + n, b)
    ensures |s| <= n + 1
    decreases n
  {
    hide At;
    var r := if n == 0 then Indirect(i) else Data(i, lo + n - 1);
    var x := At(v.blocks, inodes, r);
    assert forall b | b in s && v.owner[b] == r :: b == x;
    if n > 0 {
      MineCard(nmeta, v, inodes, i, lo, n - 1, s - {x});
    } else {
      assert s - {x} == {};
    }
    CardUnion(s - {x}, {x});
    CardSubset(s, s - {x} + {x});
  }

  /** How much an operation on one file logs. */
  lemma LogsCard(bmapstart: nat, nmeta: nat, v: View, w: View, inodes: Inodes, i: nat, lo: nat, n: nat)
    requires LogsOnly(bmapstart, v, w, i, lo, lo + n) && FsOk(nmeta, w.used, w.blocks, inodes, w.owner)
    ensures |w.logged| <= |v.logged| + n + 1 + BitBlocks(|w.used|)
  {
    hide FsOk;
    var bits := set b | b in w.logged && IsBitBlock(bmapstart, |w.used|, b);
    var mine := set b | b in w.logged && Mine(w.owner, i, lo, lo + n, b);
    RangeCard(bits, bmapstart, BitBlocks(|w.used|));
    MineCard(nmeta, w, inodes, i, lo, n, mine);
    assert w.logged <= v.logged + (bits + mine);
    CardSubset(w.logged, v.logged + (bits + mine));
    CardUnion(v.logged, bits + mine);
    CardUnion(bits, mine);
  }

  /** A chunk touches four data blocks at most, wherever it starts. */
  lemma ChunkSpans(off: nat, n: nat)
    requires n <= CHUNK
    ensures Spans(off, n) <= 4
  {
  }

  /** Chunks never overfill the log on a disk of up to three bitmap blocks, in any interleaving. */
  lemma ChunksAreSafe(size: nat)
    requires size <= 3 * BPB
    ensures !Reservation.PanicReachable(ChunkEntries(size), Reservation.LOGSIZE)
  {
    Reservation.PanicExactly(ChunkEntries(size), Reservation.LOGSIZE);
  }

  /** From one state to another, the first w bytes of src were written at an offset, and the first shown of them show
      in the file. */
  ghost predicate Stored(blocks0: seq<Block>, inodes0: Inodes, blocks: seq<Block>, inodes: Inodes, i: nat, off: nat,
      src: seq<nat>, w: nat, shown: nat)
    requires i in inodes0
  {
    && w <= shown <= |src| && Wrote(blocks0, inodes0, blocks, inodes, i, off, src[..shown])
    && SizeIs(inodes0, inodes, i, if w == 0 then inodes0[i].size else Max(inodes0[i].size, off + w))
  }

  lemma StoredMore(blocks0: seq<Block>, inodes0: Inodes, blocks: seq<Block>, inodes: Inodes, blocks': seq<Block>,
      inodes': Inodes, i: nat, off: nat, src: seq<nat>, w: nat, n: nat, r: nat, spill: nat)
    requires i in inodes0 && Stored(blocks0, inodes0, blocks, inodes, i, off, src, w, w)
    requires r + spill <= n && w + n <= |src|
    requires i in inodes && Wrote(blocks, inodes, blocks', inodes', i, off + w, src[w..w + n][..r + spill])
    requires off + w <= inodes[i].size
    requires SizeIs(inodes, inodes', i, Max(inodes[i].size, off + w + r))
    ensures Stored(blocks0, inodes0, blocks', inodes', i, off, src, w + r, w + r + spill)
  {
    hide FileByte;
    var e := w + r + spill;
    forall j: nat, a: nat
      ensures FileByte(blocks', inodes', j, a) == if j == i && off <= a < off + |src[..e]| then src[..e][a - off]
        else FileByte(blocks0, inodes0, j, a)
    {
      assert FileByte(blocks, inodes, j, a) == if j == i && off <= a < off + |src[..w]| then src[..w][a - off]
        else FileByte(blocks0, inodes0, j, a);
    }
  }

  /** The chunk at an offset cannot be written: the two tests of writei. */
  predicate Refused(size: nat, off: nat, n: nat) {
    off > size || off + n > MAXFILE * BSIZE
  }

  class File {
    const fs: Fs
    const ip: nat
    const writable: bool
    var off: nat
    /** Log entries of each transaction so far. */
    ghost var entries: seq<nat>

    constructor (fs: Fs, ip: nat, writable: bool)
      ensures this.fs == fs && this.ip == ip && this.writable == writable && off == 0 && entries == []
    {
      this.fs, this.ip, this.writable, off, entries := fs, ip, writable, 0, [];
    }

    /** The offset stays within the largest file. */
    ghost predicate Valid()
      reads this, fs
    {
      fs.Valid() && ip in fs.inodes && off <= MAXFILE * BSIZE
    }

    /** filewrite. Of src the first avail bytes can be read. The result is n or -1, and either way the first w bytes are
        in the file and the offset is past them; some more show if those that can be read end inside a block. It fails
        only if writei refuses the write, the disk is full, or a byte cannot be read. */
    method Write(src: seq<nat>, avail: nat) returns (ret: int, ghost w: nat, ghost spill: nat)
      requires Valid() && avail <= |src| < 0x8000_0000
      requires forall k | 0 <= k < |entries| :: entries[k] <= ChunkEntries(|fs.used|)
      modifies this, fs
      ensures Valid() && (ret == -1 || ret == |src|) && w + spill <= avail && off == old(off) + w
      ensures Stored(old(fs.blocks), old(fs.inodes), fs.blocks, fs.inodes, ip, old(off), src, w, w + spill)
      ensures writable ==> (ret == |src| <==> w == |src|)
      ensures !writable ==> ret == -1 && w == spill == 0
      ensures spill > 0 ==> w + spill == avail < |src| && spill < BSIZE
      ensures writable && |src| > 0 && Refused(old(fs.inodes)[ip].size, old(off), |src|) ==> ret == -1
      ensures writable && avail < |src| ==> ret == -1
      ensures writable && ret == -1 ==>
        || Refused(old(fs.inodes)[ip].size, old(off), |src|) || (forall c | 0 <= c < |fs.used| :: fs.used[c])
        || w + spill == avail < |src|
      ensures |fs.used| == |old(fs.used)| && forall k | 0 <= k < |entries| :: entries[k] <= ChunkEntries(|fs.used|)
    {
      hide FsOk, Stored, Wrote, SizeIs, Stays, Logs, Spans, BitBlocks;
      ret, w, spill := -1, 0, 0;
      Nothing(fs.blocks, fs.inodes, ip, off, src);
      if !writable {
        return;
      }
      var i, more := 0, true;
      while i < |src| && more
        invariant 0 <= i <= avail && Valid() && i <= w <= w + spill <= avail && off == old(off) + w
        invariant (more ==> w == i && spill == 0) && (spill > 0 ==> w + spill == avail < |src| && spill < BSIZE)
        invariant |fs.used| == |old(fs.used)|
        invariant Stored(old(fs.blocks), old(fs.inodes), fs.blocks, fs.inodes, ip, old(off), src, w, w + spill)
        invariant i > 0 ==> !Refused(old(fs.inodes)[ip].size, old(off), i)
        invariant !more ==>
          w < |src| && (|| Refused(old(fs.inodes)[ip].size, old(off), |src|)
                        || (forall c | 0 <= c < |fs.used| :: fs.used[c])
                        || w + spill == avail < |src|)
        invariant forall k | 0 <= k < |entries| :: entries[k] <= ChunkEntries(|fs.used|)
        decreases |src| - i, more
      {
        var n1 := Min(|src| - i, CHUNK);
        var r;
        r, spill := WriteChunk(src, i, n1, avail, old(fs.blocks), old(fs.inodes), old(off));
        w := if r > 0 then w + r else w;
        more := r == n1;
        i := if more then i + r else i;
      }
      ret := if i == |src| then |src| else -1;
    }

    /** One transaction. */
    method WriteChunk(src: seq<nat>, i: nat, n1: nat, avail: nat, ghost blocks0: seq<Block>, ghost inodes0: Inodes,
        ghost off0: nat) returns (r: int, ghost spill: nat)
      requires Valid() && ip in inodes0 && 0 < n1 <= CHUNK && i + n1 <= |src| < 0x8000_0000 && off == off0 + i
      requires Stored(blocks0, inodes0, fs.blocks, fs.inodes, ip, off0, src, i, i) && i <= avail <= |src|
      requires i > 0 ==> off0 <= inodes0[ip].size
      modifies this, fs
      ensures Valid() && -1 <= r <= n1 && off == old(off) + (if r > 0 then r else 0) && |fs.used| == |old(fs.used)|
      ensures r == -1 <==> (i == 0 && off0 > inodes0[ip].size) || off0 + i + n1 > MAXFILE * BSIZE
      ensures var w := if r > 0 then i + r else i;
        w + spill <= avail && Stored(blocks0, inodes0, fs.blocks, fs.inodes, ip, off0, src, w, w + spill)
      ensures 0 <= r < n1 ==>
        || (spill == 0 && forall c | 0 <= c < |fs.used| :: fs.used[c])
        || (i + r + spill == avail < |src| && spill < BSIZE)
      ensures r == -1 || r == n1 ==> spill == 0
      ensures exists e: nat :: e <= ChunkEntries(|fs.used|) && entries == old(entries) + [e]
    {
      hide FsOk, Stored, Wrote, SizeIs, Stays, Logs, Spans, BitBlocks, SpillLogs;
      StoredSize(blocks0, inodes0, fs.blocks, fs.inodes, ip, off0, src, i);
      fs.logged := {};
      ghost var v, inodes1 := fs.Seen(), fs.inodes;
      r, spill := fs.Writei(ip, off, src[i..i + n1], Min(avail - i, n1));
      if r >= 0 {
        StoredMore(blocks0, inodes0, v.blocks, inodes1, fs.blocks, fs.inodes, ip, off0, src, i, n1, r, spill);
        ghost var ib := InodeBlock(fs.inodestart, ip);
        if spill > 0 {
          SpillLogsOnly(fs.bmapstart, v.(logged := v.logged + {ib}), inodes1, fs.Seen(), fs.inodes, ip, off, r);
          SpansHold(off, n1, r);
          OnlyWiden(fs.bmapstart, v.(logged := v.logged + {ib}), fs.Seen(), ip, off / BSIZE, (off + r) / BSIZE + 1,
              off / BSIZE + Spans(off, n1));
        } else {
          LogsLogsOnly(fs.bmapstart, v.(logged := v.logged + {ib}), fs.Seen(), ip, off / BSIZE,
              off / BSIZE + Spans(off, n1));
        }
        Entries(fs.bmapstart, fs.nmeta, v, fs.Seen(), fs.inodes, ip, off, n1, ib);
      }
      if r > 0 {
        off := off + r;
      }
      entries := entries + [|fs.logged|];
    }
  }

  lemma LogsLogsOnly(bmapstart: nat, v: View, w: View, i: nat, lo: nat, hi: nat)
    requires Logs(bmapstart, v, w, i, lo, hi)
    ensures LogsOnly(bmapstart, v, w, i, lo, hi)
  {
  }

  lemma OnlyWiden(bmapstart: nat, v: View, w: View, i: nat, lo: nat, hi: nat, hi': nat)
    requires LogsOnly(bmapstart, v, w, i, lo, hi) && hi <= hi'
    ensures LogsOnly(bmapstart, v, w, i, lo, hi')
  {
  }

  lemma Nothing(blocks: seq<Block>, inodes: Inodes, i: nat, off: nat, src: seq<nat>)
    requires i in inodes
    ensures Stored(blocks, inodes, blocks, inodes, i, off, src, 0, 0)
  {
  }

  /** Once bytes are in, the offset is within the file. */
  lemma StoredSize(blocks0: seq<Block>, inodes0: Inodes, blocks: seq<Block>, inodes: Inodes, i: nat, off: nat,
      src: seq<nat>, w: nat)
    requires i in inodes0 && Stored(blocks0, inodes0, blocks, inodes, i, off, src, w, w)
    ensures i in inodes && (w > 0 ==> off + w <= inodes[i].size) && (w == 0 ==> inodes[i].size == inodes0[i].size)
  {
  }

  /** A transaction of one chunk fits. */
  lemma Entries(bmapstart: nat, nmeta: nat, v: View, w: View, inodes: Inodes, i: nat, off: nat, n: nat, ib: nat)
    requires v.logged == {}
    requires LogsOnly(bmapstart, v.(logged := v.logged + {ib}), w, i, off / BSIZE, off / BSIZE + Spans(off, n))
    requires FsOk(nmeta, w.used, w.blocks, inodes, w.owner) && n <= CHUNK
    ensures |w.logged| <= ChunkEntries(|w.used|) && |w.used| == |v.used|
  {
    hide FsOk;
    ChunkSpans(off, n);
    LogsCard(bmapstart, nmeta, v.(logged := v.logged + {ib}), w, inodes, i, off / BSIZE, Spans(off, n));
    assert v.logged + {ib} == {ib};
  }
}
