/**
 tools/mkfs.c: the disk image that the kernel starts from. Blocks are handed out in order from
 `freeblock`, on an image of zeroed sectors, and the bitmap is written last.
 */
module Mkfs {
  import opened Common
  import opened FileSystem

  /** The bitmap whose first n bits are set. */
  function First(n: nat, size: nat): (used: seq<bool>)
    ensures |used| == size && forall b | 0 <= b < size :: used[b] <==> b < n
  {
    if size == 0 then [] else First(n, size - 1) + [size - 1 < n]
  }

  lemma FirstNext(n: nat, size: nat)
    requires n < size
    ensures First(n, size)[n := true] == First(n + 1, size)
  {
  }

  /** No file has a hole. */
  ghost predicate Solid(blocks: seq<Block>, inodes: Inodes) {
    forall i | i in inodes :: NoHole(blocks, inodes, i, 0, inodes[i].size)
  }

  lemma SolidStays(blocks: seq<Block>, inodes: Inodes, blocks': seq<Block>, inodes': Inodes)
    requires Solid(blocks, inodes) && Stays(blocks, inodes, blocks', inodes')
    requires forall i | i in inodes' :: i in inodes && inodes'[i].size == inodes[i].size
    ensures Solid(blocks', inodes')
  {
    hide At;
    forall i, a: nat | i in inodes' && a < inodes'[i].size ensures HasBlock(blocks', inodes', i, a) {
      assert HasBlock(blocks, inodes, i, a);
    }
  }

  /** Nothing is stored beyond the blocks handed out. */
  ghost predicate Blank(blocks: seq<Block>, from: nat) {
    forall b | from <= b < |blocks| :: blocks[b] == Zero
  }

  /** A new inode refers to nothing. */
  lemma FreshInode(nmeta: nat, used: seq<bool>, blocks: seq<Block>, inodes: Inodes, owner: Owners, i: nat)
    requires FsOk(nmeta, used, blocks, inodes, owner) && i !in inodes
    ensures var inodes' := inodes[i := Inode(Repeat(0, NDIRECT + 1), 0)];
      FsOk(nmeta, used, blocks, inodes', owner) && (Solid(blocks, inodes) ==> Solid(blocks, inodes'))
  {
    var inodes' := inodes[i := Inode(Repeat(0, NDIRECT + 1), 0)];
    forall r: Ref ensures At(blocks, inodes', r) == At(blocks, inodes, r) {
    }
    hide At;
    if Solid(blocks, inodes) {
      forall j, a: nat | j in inodes' && a < inodes'[j].size ensures HasBlock(blocks, inodes', j, a) {
        assert HasBlock(blocks, inodes, j, a);
      }
    }
  }

  class Image {
    const nmeta: nat
    const size: nat
    var freeblock: nat
    var freeinode: nat
    var blocks: seq<Block>
    var inodes: Inodes
    ghost var owner: Owners

    /** The image with the bitmap that balloc would write now is a file system without holes. */
    ghost predicate Sound()
      reads this
    {
      && nmeta <= freeblock <= size == |blocks| && FsOk(nmeta, First(freeblock, size), blocks, inodes, owner)
      && Blank(blocks, freeblock) && Solid(blocks, inodes) && forall i | i in inodes :: i < freeinode
    }

    /** And no file has a block past its end. */
    ghost predicate Valid()
      reads this
    {
      Sound() && Tight(owner, inodes)
    }

    /** What balloc needs to make it the disk of a consistent file system. */
    ghost predicate Ready()
      reads this
    {
      nmeta <= freeblock <= size == |blocks| && FsOk(nmeta, First(freeblock, size), blocks, inodes, owner)
    }

    /** Zeroed sectors. */
    constructor (nmeta: nat, size: nat)
      requires 0 < nmeta <= size
      ensures Valid() && this.nmeta == nmeta && this.size == size && freeblock == nmeta && inodes == map[]
      ensures freeinode == 1
    {
      this.nmeta, this.size, freeblock, freeinode, inodes, owner := nmeta, size, nmeta, 1, map[], map[];
      blocks := seq(size, _ => Zero);
      new;
      EmptyOk(nmeta, First(nmeta, size), blocks, map[]);
    }

    /** ialloc: the next inode, empty. */
    method Ialloc() returns (i: nat)
      requires Valid()
      modifies `freeinode, `inodes
      ensures Valid() && i !in old(inodes) && inodes == old(inodes)[i := Inode(Repeat(0, NDIRECT + 1), 0)]
      ensures i == old(freeinode) && freeinode == i + 1
    {
      hide FsOk, Solid, Blank;
      i := freeinode;
      FreshInode(nmeta, First(freeblock, size), blocks, inodes, owner, i);
      freeinode, inodes := freeinode + 1, inodes[i := Inode(Repeat(0, NDIRECT + 1), 0)];
    }

    /** The block for fbn, handed out if there is none; 0 when the image has no more sectors, where
        mkfs fails to read one. */
    method Place(i: nat, fbn: nat) returns (x: nat)
      requires Sound() && i in inodes && fbn < MAXFILE
      modifies `freeblock, `blocks, `inodes, `owner
      ensures Sound() && SameFiles(old(blocks), old(inodes), blocks, inodes)
      ensures Stays(old(blocks), old(inodes), blocks, inodes)
      ensures if x == 0 then freeblock == size else x == At(blocks, inodes, Data(i, fbn))
      ensures Gained(old(owner), owner, i, fbn) && freeblock <= old(freeblock) + 2
    {
      hide FsOk, SameFiles, Stays, At, Solid, Blank;
      ghost var used := First(freeblock, size);
      Unchanged(blocks, inodes);
      AddrsAt(nmeta, used, blocks, inodes, owner, i, fbn);
      if fbn < NDIRECT {
        x := inodes[i].addrs[fbn];
        if x == 0 && freeblock < size {
          x := freeblock;
          StartBlock(freeblock, size, blocks, nmeta, used, inodes, owner);
          DirectAdded(nmeta, used, blocks, inodes, owner, i, fbn, x);
          inodes, owner, freeblock := SetAddr(inodes, i, fbn, x), owner[x := Data(i, fbn)], freeblock + 1;
          Kept(old(blocks), old(inodes), blocks, inodes);
        }
      } else {
        x := inodes[i].addrs[NDIRECT];
        if x == 0 {
          x := PlaceIndirect(i, fbn);
        }
        if x != 0 {
          x := PlaceListed(i, fbn, old(blocks), old(inodes));
        }
      }
    }

    method PlaceIndirect(i: nat, ghost fbn: nat) returns (x: nat)
      requires Sound() && i in inodes && At(blocks, inodes, Indirect(i)) == 0
      modifies `freeblock, `inodes, `owner
      ensures Sound() && SameFiles(old(blocks), old(inodes), blocks, inodes)
      ensures Stays(old(blocks), old(inodes), blocks, inodes)
      ensures x == At(blocks, inodes, Indirect(i)) && i in inodes && (x == 0 ==> freeblock == size)
      ensures Gained(old(owner), owner, i, fbn) && freeblock <= old(freeblock) + 1
    {
      hide FsOk, SameFiles, Stays, At, Solid, Blank;
      ghost var used := First(freeblock, size);
      Unchanged(blocks, inodes);
      AddrsAt(nmeta, used, blocks, inodes, owner, i, NDIRECT);
      x := 0;
      if freeblock < size {
        x := freeblock;
        StartBlock(freeblock, size, blocks, nmeta, used, inodes, owner);
        IndirectAdded(nmeta, used, blocks, inodes, owner, i, x);
        inodes, owner, freeblock := SetAddr(inodes, i, NDIRECT, x), owner[x := Indirect(i)], freeblock + 1;
        Kept(old(blocks), old(inodes), blocks, inodes);
      }
    }

    method PlaceListed(i: nat, fbn: nat, ghost blocks0: seq<Block>, ghost inodes0: Inodes) returns (x: nat)
      requires Sound() && i in inodes && NDIRECT <= fbn < MAXFILE && At(blocks, inodes, Indirect(i)) != 0
      requires SameFiles(blocks0, inodes0, blocks, inodes) && Stays(blocks0, inodes0, blocks, inodes)
      modifies `freeblock, `blocks, `owner
      ensures Sound() && SameFiles(blocks0, inodes0, blocks, inodes) && Stays(blocks0, inodes0, blocks, inodes)
      ensures if x == 0 then freeblock == size else x == At(blocks, inodes, Data(i, fbn))
      ensures Gained(old(owner), owner, i, fbn) && freeblock <= old(freeblock) + 1
    {
      hide FsOk, SameFiles, Stays, At, Solid, Blank;
      ghost var used := First(freeblock, size);
      Unchanged(blocks, inodes);
      AddrsAt(nmeta, used, blocks, inodes, owner, i, fbn);
      var t := inodes[i].addrs[NDIRECT];
      x := WordAt(blocks, t, fbn - NDIRECT);
      if x == 0 && freeblock < size {
        x := freeblock;
        StartBlock(freeblock, size, blocks, nmeta, used, inodes, owner);
        ListedAdded(nmeta, used, blocks, inodes, owner, i, fbn, x, blocks0, inodes0);
        ListedAdded(nmeta, used, blocks, inodes, owner, i, fbn, x, blocks, inodes);
        Before(nmeta, used, blocks, inodes, owner, Indirect(i), freeblock);
        blocks, owner, freeblock := SetWord(blocks, t, fbn - NDIRECT, x), owner[x := Data(i, fbn)], freeblock + 1;
        StillBlank(old(blocks), blocks, t, old(freeblock));
        Kept(old(blocks), old(inodes), blocks, inodes);
      }
    }

    /** iappend on its way: tot bytes are appended and the size is still the old one. */
    ghost predicate Appending(blocks0: seq<Block>, inodes0: Inodes, i: nat, src: seq<nat>, tot: nat)
      requires tot <= |src|
      reads this
    {
      && Sound() && i in inodes0 && i in inodes && Stays(blocks0, inodes0, blocks, inodes)
      && Wrote(blocks0, inodes0, blocks, inodes, i, inodes0[i].size, src[..tot])
      && SizeIs(inodes0, inodes, i, inodes0[i].size)
      && NoHole(blocks, inodes, i, 0, inodes0[i].size + tot) && TightTo(owner, inodes, i, inodes0[i].size + tot)
    }

    /** iappend: the bytes go to the end of the file. It fails, where mkfs stops, if the file would be
        too large or the image is full; it takes at most two sectors for each block it touches. */
    method Iappend(i: nat, src: seq<nat>) returns (ok: bool)
      requires Valid() && i in inodes
      modifies `freeblock, `blocks, `inodes, `owner
      ensures ok ==> Valid() && Stays(old(blocks), old(inodes), blocks, inodes)
      ensures ok ==> Wrote(old(blocks), old(inodes), blocks, inodes, i, old(inodes)[i].size, src)
      ensures ok ==> SizeIs(old(inodes), inodes, i, old(inodes)[i].size + |src|)
      ensures ok ==> old(inodes)[i].size + |src| <= MAXFILE * BSIZE
      ensures !ok ==> old(inodes)[i].size + |src| > MAXFILE * BSIZE || freeblock == size
      ensures freeblock <= old(freeblock) + 2 * Spans(old(inodes)[i].size, |src|)
    {
      hide FsOk, Wrote, Stays, At, SizeIs, Solid, Blank, NoHole, Tight, TightTo, Spans;
      Unchanged(blocks, inodes);
      var off, tot := inodes[i].size, 0;
      WroteNone(blocks, inodes, i, off);
      SizeBound(nmeta, First(freeblock, size), blocks, inodes, owner, i);
      Unbroken(blocks, inodes, i);
      TightHere(owner, inodes, i);
      assert src[..0] == [];
      SpansGrow(off, |src|, 0, 0);
      while tot < |src|
        invariant 0 <= tot <= |src| && off == old(inodes)[i].size && off + tot <= MAXFILE * BSIZE
        invariant Appending(old(blocks), old(inodes), i, src, tot)
        invariant 0 < tot < |src| ==> (off + tot) % BSIZE == 0
        invariant freeblock <= old(freeblock) + 2 * (if tot == 0 then 0 else Spans(off, tot))
      {
        SpansGrow(off, |src|, tot, 0);
        if (off + tot) / BSIZE >= MAXFILE {
          return false;
        }
        var n1 := AppendBlock(i, off, src, tot, old(blocks), old(inodes));
        SpansGrow(off, |src|, tot, n1);
        if n1 == 0 {
          return false;
        }
        tot := tot + n1;
      }
      assert src[..tot] == src;
      Resize(nmeta, First(freeblock, size), old(blocks), old(inodes), blocks, inodes, owner, i, off, src, off + tot);
      SizedSolid(blocks, inodes, i, off + tot);
      SizedTight(owner, inodes, i, off + tot);
      inodes := inodes[i := inodes[i].(size := off + tot)];
      ok := true;
    }

    /** The last step for the root directory. Its size goes past the next block boundary, so that it ends
        in a hole exactly if it had filled its last block. */
    method FixRoot(i: nat)
      requires Valid() && i in inodes
      modifies `inodes
      ensures inodes == old(inodes)[i := old(inodes)[i].(size := (old(inodes)[i].size / BSIZE + 1) * BSIZE)]
      ensures Ready() <==> old(inodes)[i].size < MAXFILE * BSIZE
      ensures Solid(blocks, inodes) <==> old(inodes)[i].size % BSIZE != 0
    {
      hide FsOk, Solid, Blank, Tight;
      Rounded(nmeta, First(freeblock, size), blocks, inodes, owner, i);
      var off := inodes[i].size;
      off := (off / BSIZE + 1) * BSIZE;
      inodes := inodes[i := inodes[i].(size := off)];
    }

    /** balloc: the one bitmap block. It fails, where mkfs stops, if the blocks in use do not fit it. */
    method Balloc() returns (ok: bool, bits: seq<bool>)
      requires size <= BPB && Ready()
      ensures ok <==> freeblock < BPB
      ensures ok ==> |bits| == BPB && bits == First(freeblock, BPB) && FsOk(nmeta, bits[..size], blocks, inodes, owner)
    {
      hide FsOk;
      bits := [];
      ok := freeblock < BPB;
      if !ok {
        return;
      }
      bits := First(0, BPB);
      var i := 0;
      while i < freeblock
        invariant 0 <= i <= freeblock && bits == First(i, BPB)
      {
        FirstNext(i, BPB);
        bits := bits[i := true];
        i := i + 1;
      }
      assert bits[..size] == First(freeblock, size);
    }

    /** One round of iappend's loop: the bytes that fall in the next block, none if the image is full. */
    method AppendBlock(i: nat, off: nat, src: seq<nat>, tot: nat, ghost blocks0: seq<Block>, ghost inodes0: Inodes)
      returns (n1: nat)
      requires tot < |src| && Appending(blocks0, inodes0, i, src, tot) && off == inodes0[i].size
      requires (off + tot) / BSIZE < MAXFILE
      modifies `freeblock, `blocks, `inodes, `owner
      ensures tot + n1 <= |src| && (n1 == 0 ==> freeblock == size) && freeblock <= old(freeblock) + 2
      ensures n1 != 0 ==> tot + n1 == |src| || (off + tot + n1) % BSIZE == 0
      ensures n1 != 0 ==> Appending(blocks0, inodes0, i, src, tot + n1) && off + tot + n1 <= MAXFILE * BSIZE
    {
      hide FsOk, Wrote, Stays, At, SizeIs, Solid, Blank, NoHole, SameFiles;
      var fbn := (off + tot) / BSIZE;
      var x := Place(i, fbn);
      BmapStep(blocks0, inodes0, old(blocks), old(inodes), blocks, inodes, i, off, src[..tot]);
      if x == 0 {
        return 0;
      }
      n1 := Min(|src| - tot, (fbn + 1) * BSIZE - (off + tot));
      ghost var blocks1 := blocks;
      WriteStep(nmeta, First(freeblock, size), blocks0, inodes0, blocks, inodes, owner, i, off, src, tot, n1);
      BlockBytes(nmeta, First(freeblock, size), blocks, inodes, owner, i, fbn);
      StoreBlock(nmeta, First(freeblock, size), blocks, inodes, owner, i, fbn,
          Patch(BytesOf(blocks[x]), (off + tot) % BSIZE, src[tot..tot + n1]));
      Before(nmeta, First(freeblock, size), blocks, inodes, owner, Data(i, fbn), freeblock);
      blocks := blocks[x := Bytes(Patch(BytesOf(blocks[x]), (off + tot) % BSIZE, src[tot..tot + n1]))];
      StillBlank(blocks1, blocks, x, freeblock);
      SameSizes(old(blocks), old(inodes), blocks1, inodes);
      TightMore(old(owner), owner, old(inodes), inodes, i, off + tot, n1);
      Filled(old(blocks), old(inodes), blocks1, inodes, blocks, i, off, tot, n1);
    }
  }

  /** Rounding a size up past the next block boundary. */
  lemma Rounded(nmeta: nat, used: seq<bool>, blocks: seq<Block>, inodes: Inodes, owner: Owners, i: nat)
    requires FsOk(nmeta, used, blocks, inodes, owner) && i in inodes && Solid(blocks, inodes) && Tight(owner, inodes)
    ensures var size := inodes[i].size;
      var inodes' := inodes[i := inodes[i].(size := (size / BSIZE + 1) * BSIZE)];
      && (FsOk(nmeta, used, blocks, inodes', owner) <==> size < MAXFILE * BSIZE)
      && (Solid(blocks, inodes') <==> size % BSIZE != 0)
  {
    var size := inodes[i].size;
    var inodes' := inodes[i := inodes[i].(size := (size / BSIZE + 1) * BSIZE)];
    forall r: Ref ensures At(blocks, inodes', r) == At(blocks, inodes, r) {
    }
    hide At;
    LastBlock(nmeta, used, blocks, inodes, owner, i);
    if size % BSIZE != 0 {
      forall j, a: nat | j in inodes' && a < inodes'[j].size ensures HasBlock(blocks, inodes', j, a) {
        assert j != i || a < size ==> HasBlock(blocks, inodes, j, a);
      }
    } else {
      assert !HasBlock(blocks, inodes', i, size);
    }
  }

  /** There is a block at the end of a file exactly if its last block is not full. */
  lemma LastBlock(nmeta: nat, used: seq<bool>, blocks: seq<Block>, inodes: Inodes, owner: Owners, i: nat)
    requires FsOk(nmeta, used, blocks, inodes, owner) && i in inodes && Solid(blocks, inodes) && Tight(owner, inodes)
    ensures HasBlock(blocks, inodes, i, inodes[i].size) <==> inodes[i].size % BSIZE != 0
  {
    hide At;
    var size := inodes[i].size;
    if size % BSIZE != 0 {
      assert HasBlock(blocks, inodes, i, size - 1);
    } else {
      var r := Data(i, size / BSIZE);
      assert At(blocks, inodes, r) != 0 ==> Owned(owner, At(blocks, inodes, r), r);
    }
  }

  /** Every data block belongs to a file, before its end. */
  ghost predicate Tight(owner: Owners, inodes: Inodes) {
    forall b | b in owner && owner[b].Data? ::
      owner[b].inum in inodes && owner[b].bn * BSIZE < inodes[owner[b].inum].size
  }

  /** The same with n as the end of file i. */
  ghost predicate TightTo(owner: Owners, inodes: Inodes, i: nat, n: nat) {
    forall b | b in owner && owner[b].Data? ::
      owner[b].inum in inodes && owner[b].bn * BSIZE < if owner[b].inum == i then n else inodes[owner[b].inum].size
  }

  lemma TightHere(owner: Owners, inodes: Inodes, i: nat)
    requires Tight(owner, inodes) && i in inodes
    ensures TightTo(owner, inodes, i, inodes[i].size)
  {
  }

  lemma SizedTight(owner: Owners, inodes: Inodes, i: nat, n: nat)
    requires TightTo(owner, inodes, i, n) && i in inodes
    ensures Tight(owner, inodes[i := inodes[i].(size := n)])
  {
  }

  /** Only inode i gained blocks: its indirect block, or block fbn. */
  ghost predicate Gained(owner0: Owners, owner: Owners, i: nat, fbn: nat) {
    forall b | b in owner ::
      (b in owner0 && owner[b] == owner0[b]) || owner[b] == Indirect(i) || owner[b] == Data(i, fbn)
  }

  lemma TightMore(owner0: Owners, owner: Owners, inodes0: Inodes, inodes: Inodes, i: nat, n: nat, n1: nat)
    requires TightTo(owner0, inodes0, i, n) && Gained(owner0, owner, i, n / BSIZE) && n1 > 0 && i in inodes
    requires forall j | j in inodes0 :: j in inodes && inodes[j].size == inodes0[j].size
    ensures TightTo(owner, inodes, i, n + n1)
  {
  }

  /** How the span of a write grows round by round. */
  lemma SpansGrow(off: nat, len: nat, tot: nat, n: nat)
    requires tot <= len && tot + n <= len && (tot > 0 && tot < len ==> (off + tot) % BSIZE == 0)
    ensures tot < len ==> (if tot == 0 then 0 else Spans(off, tot)) + 1 <= Spans(off, len)
    ensures tot < len && n > 0 ==> (if tot == 0 then 0 else Spans(off, tot)) + 1 <= Spans(off, tot + n)
    ensures (if tot == 0 then 0 else Spans(off, tot)) <= Spans(off, len)
  {
    if 0 < tot < len {
      SpansAligned(off, tot);
      SpansMore(off, tot, len);
      if n > 0 {
        SpansMore(off, tot, tot + n);
      }
    }
  }

  lemma SpansAligned(off: nat, tot: nat)
    requires (off + tot) % BSIZE == 0
    ensures Spans(off, tot) * BSIZE == off % BSIZE + tot
  {
  }

  lemma SpansMore(off: nat, tot: nat, len: nat)
    requires (off + tot) % BSIZE == 0 && tot < len
    ensures Spans(off, tot) + 1 <= Spans(off, len)
  {
    SpansAligned(off, tot);
  }

  lemma SameSizes(blocks: seq<Block>, inodes: Inodes, blocks': seq<Block>, inodes': Inodes)
    requires SameFiles(blocks, inodes, blocks', inodes')
    ensures forall j | j in inodes :: j in inodes' && inodes'[j].size == inodes[j].size
  {
    hide FileByte;
  }

  lemma Unbroken(blocks: seq<Block>, inodes: Inodes, i: nat)
    requires Solid(blocks, inodes) && i in inodes
    ensures NoHole(blocks, inodes, i, 0, inodes[i].size)
  {
  }

  lemma SizedSolid(blocks: seq<Block>, inodes: Inodes, i: nat, n: nat)
    requires Solid(blocks, inodes) && i in inodes && NoHole(blocks, inodes, i, 0, n)
    ensures Solid(blocks, inodes[i := inodes[i].(size := n)])
  {
    var inodes' := inodes[i := inodes[i].(size := n)];
    forall j, a: nat | j in inodes' && a < inodes'[j].size ensures HasBlock(blocks, inodes', j, a) {
      assert HasBlock(blocks, inodes, j, a);
    }
  }

  /** The blocks of the old bytes stay, and the new bytes are in one block. */
  lemma Filled(blocks0: seq<Block>, inodes0: Inodes, blocks: seq<Block>, inodes: Inodes, blocks': seq<Block>, i: nat,
      off: nat, tot: nat, n: nat)
    requires NoHole(blocks0, inodes0, i, 0, off + tot) && Stays(blocks0, inodes0, blocks, inodes)
    requires Solid(blocks, inodes)
    requires At(blocks, inodes, Data(i, (off + tot) / BSIZE)) != 0 && n <= BSIZE - (off + tot) % BSIZE
    requires forall q: Ref :: At(blocks', inodes, q) == At(blocks, inodes, q)
    ensures NoHole(blocks', inodes, i, 0, off + tot + n) && Solid(blocks', inodes)
  {
    hide At;
    forall a: nat | a < off + tot + n ensures HasBlock(blocks', inodes, i, a) {
      if a < off + tot {
        assert HasBlock(blocks0, inodes0, i, a);
      } else {
        assert a / BSIZE == (off + tot) / BSIZE;
      }
    }
    assert Stays(blocks, inodes, blocks', inodes);
    SolidStays(blocks, inodes, blocks', inodes);
  }

  /** The next block is free, cleared, and becomes the last one handed out. */
  lemma StartBlock(b: nat, size: nat, blocks: seq<Block>, nmeta: nat, used: seq<bool>, inodes: Inodes, owner: Owners)
    requires b < size == |blocks| && Blank(blocks, b) && used == First(b, size) && nmeta <= b
    requires FsOk(nmeta, used, blocks, inodes, owner)
    ensures !used[b] && used[b := true] == First(b + 1, size) && blocks[b := Zero] == blocks && Blank(blocks, b + 1)
    ensures b > 0
  {
    FirstNext(b, size);
  }

  lemma Kept(blocks: seq<Block>, inodes: Inodes, blocks': seq<Block>, inodes': Inodes)
    requires Solid(blocks, inodes) && Stays(blocks, inodes, blocks', inodes')
    requires SameFiles(blocks, inodes, blocks', inodes')
    ensures Solid(blocks', inodes') && forall i | i in inodes' :: i in inodes
  {
    hide FileByte;
    SolidStays(blocks, inodes, blocks', inodes');
  }

  /** A block that is referred to was handed out. */
  lemma Before(nmeta: nat, used: seq<bool>, blocks: seq<Block>, inodes: Inodes, owner: Owners, r: Ref, n: nat)
    requires FsOk(nmeta, used, blocks, inodes, owner) && At(blocks, inodes, r) != 0 && used == First(n, |used|)
    ensures At(blocks, inodes, r) < n && At(blocks, inodes, r) < |blocks|
  {
    hide At;
    assert Owned(owner, At(blocks, inodes, r), r);
  }

  lemma StillBlank(blocks: seq<Block>, blocks': seq<Block>, t: nat, b: nat)
    requires Blank(blocks, b) && t < b && |blocks'| == |blocks| && t < |blocks| && blocks' == blocks[t := blocks'[t]]
    ensures Blank(blocks', b) && Blank(blocks', b + 1)
  {
  }

  // A whole run of mkfs.

  /** File i shows the given bytes, and zeros after them. */
  ghost predicate ShowsAll(blocks: seq<Block>, inodes: Inodes, i: nat, bytes: seq<nat>) {
    forall a: nat :: FileByte(blocks, inodes, i, a) == if a < |bytes| then bytes[a] else 0
  }

  /** These are the files, and their contents. */
  ghost predicate Stores(blocks: seq<Block>, inodes: Inodes, files: map<nat, seq<nat>>) {
    && inodes.Keys == files.Keys
    && forall i | i in files :: inodes[i].size == |files[i]| && ShowsAll(blocks, inodes, i, files[i])
  }

  lemma StoresFresh(blocks: seq<Block>, inodes: Inodes, files: map<nat, seq<nat>>, i: nat)
    requires Stores(blocks, inodes, files) && i !in inodes
    ensures Stores(blocks, inodes[i := Inode(Repeat(0, NDIRECT + 1), 0)], files[i := []])
  {
    var inodes' := inodes[i := Inode(Repeat(0, NDIRECT + 1), 0)];
    forall j: nat, a: nat | j in inodes' && j != i
      ensures FileByte(blocks, inodes', j, a) == FileByte(blocks, inodes, j, a)
    {
    }
  }

  lemma StoresAppended(blocks: seq<Block>, inodes: Inodes, blocks': seq<Block>, inodes': Inodes,
      files: map<nat, seq<nat>>, i: nat, src: seq<nat>)
    requires Stores(blocks, inodes, files) && i in files
    requires Wrote(blocks, inodes, blocks', inodes', i, inodes[i].size, src)
    requires SizeIs(inodes, inodes', i, inodes[i].size + |src|)
    ensures Stores(blocks', inodes', files[i := files[i] + src])
  {
    hide FileByte;
  }

  /** The chunks of BSIZE bytes that a file is read in. */
  function Chunks(n: nat): nat {
    (n + BSIZE - 1) / BSIZE
  }

  lemma ChunkSpan(k: nat, n: nat)
    requires 0 < n <= BSIZE
    ensures Spans(k * BSIZE, n) == 1
  {
  }

  lemma EntrySpan(k: nat)
    ensures Spans(k * DIRENT, DIRENT) == 1
  {
    assert k * DIRENT % BSIZE == (k % (BSIZE / DIRENT)) * DIRENT;
  }

  /** The loop over a file: it is appended chunk by chunk. */
  method AppendFile(image: Image, i: nat, bytes: seq<nat>, ghost files: map<nat, seq<nat>>) returns (ok: bool)
    requires image.Valid() && Stores(image.blocks, image.inodes, files) && i in files && files[i] == []
    modifies image
    ensures image.freeinode == old(image.freeinode)
    ensures ok ==> image.Valid() && Stores(image.blocks, image.inodes, files[i := bytes])
    ensures ok ==> |bytes| <= MAXFILE * BSIZE
    ensures !ok ==> |bytes| > MAXFILE * BSIZE || image.freeblock == image.size
    ensures image.freeblock <= old(image.freeblock) + 2 * Chunks(|bytes|)
  {
    hide FsOk, Wrote, Stays, SizeIs, Solid, Blank, Tight, Stores, Spans;
    assert files[i := bytes[..0]] == files;
    ok := true;
    var k := 0;
    while k * BSIZE < |bytes|
      invariant image.Valid() && 0 <= k
      invariant Stores(image.blocks, image.inodes, files[i := bytes[..Min(k * BSIZE, |bytes|)]])
      invariant image.freeinode == old(image.freeinode) && (k == 0 || (k - 1) * BSIZE < |bytes|)
      invariant image.freeblock <= old(image.freeblock) + 2 * k && Min(k * BSIZE, |bytes|) <= MAXFILE * BSIZE
      decreases |bytes| - k * BSIZE
    {
      var n := Min(BSIZE, |bytes| - k * BSIZE);
      var src := bytes[k * BSIZE..k * BSIZE + n];
      ghost var blocks0, inodes0 := image.blocks, image.inodes;
      SizeOf(blocks0, inodes0, files[i := bytes[..k * BSIZE]], i);
      ok := image.Iappend(i, src);
      ChunkSpan(k, n);
      if !ok {
        return;
      }
      StoresAppended(blocks0, inodes0, image.blocks, image.inodes, files[i := bytes[..k * BSIZE]], i, src);
      assert bytes[..k * BSIZE] + src == bytes[..k * BSIZE + n];
      assert files[i := bytes[..k * BSIZE]][i := bytes[..k * BSIZE + n]] == files[i := bytes[..k * BSIZE + n]];
      k := k + 1;
    }
    assert bytes[..Min(k * BSIZE, |bytes|)] == bytes;
  }

  lemma SizeOf(blocks: seq<Block>, inodes: Inodes, files: map<nat, seq<nat>>, i: nat)
    requires Stores(blocks, inodes, files) && i in files
    ensures i in inodes && inodes[i].size == |files[i]|
  {
  }

  /** The sizes that mkfs uses: the log of 30 blocks and 51 inode blocks between the super block and the
      bitmap block, 2000 blocks in all; a directory entry has 16 bytes, 14 of them for the name. */
  const NMETA: nat := 2 + 30 + 51 + 1
  const FSSIZE: nat := 2000
  const DIRENT: nat := 16
  const DIRSIZ: nat := 14
  const ROOTINO: nat := 1

  const DOT: seq<nat> := [46]
  const DOTDOT: seq<nat> := [46, 46]

  /** struct dirent: the inode number, low byte first, and the name, cut or filled with zeros. */
  function Entry(inum: nat, name: seq<nat>): (bytes: seq<nat>)
    ensures |bytes| == DIRENT && (inum < 0x1_0000 ==> bytes[0] + 256 * bytes[1] == inum)
    ensures forall i | 0 <= i < DIRSIZ :: bytes[2 + i] == if i < |name| then name[i] else 0
  {
    [inum % 256, inum / 256 % 256] + if |name| < DIRSIZ then name + Repeat(0, DIRSIZ - |name|) else name[..DIRSIZ]
  }

  /** The root directory with entries for the first k files. */
  function Directory(names: seq<seq<nat>>, k: nat): (bytes: seq<nat>)
    requires k <= |names|
    ensures |bytes| == (k + 2) * DIRENT
  {
    if k == 0 then Entry(ROOTINO, DOT) + Entry(ROOTINO, DOTDOT)
    else Directory(names, k - 1) + Entry(ROOTINO + k, names[k - 1])
  }

  /** The root directory and the first k files. */
  ghost function Tree(names: seq<seq<nat>>, contents: seq<seq<nat>>, k: nat): (files: map<nat, seq<nat>>)
    requires k <= |names| == |contents|
    ensures forall i :: i in files <==> ROOTINO <= i <= ROOTINO + k
    ensures files[ROOTINO] == Directory(names, k) && forall j: nat | j < k :: files[ROOTINO + 1 + j] == contents[j]
  {
    if k == 0 then map[ROOTINO := Directory(names, 0)]
    else Tree(names, contents, k - 1)[ROOTINO + k := contents[k - 1]][ROOTINO := Directory(names, k)]
  }

  /** How often mkfs appends to a file: once for every entry and every chunk. */
  ghost function Appends(contents: seq<seq<nat>>, k: nat): nat
    requires k <= |contents|
  {
    if k == 0 then 2 else Appends(contents, k - 1) + 1 + Chunks(|contents[k - 1]|)
  }

  ghost predicate TooLarge(names: seq<seq<nat>>, contents: seq<seq<nat>>) {
    (|names| + 2) * DIRENT > MAXFILE * BSIZE || exists k | 0 <= k < |contents| :: |contents[k]| > MAXFILE * BSIZE
  }

  /** One entry of the root directory. */
  method AddEntry(image: Image, entry: seq<nat>, ghost files: map<nat, seq<nat>>, ghost n: nat) returns (ok: bool)
    requires image.Valid() && Stores(image.blocks, image.inodes, files) && ROOTINO in files && |entry| == DIRENT
    requires |files[ROOTINO]| == n * DIRENT
    modifies image
    ensures image.freeinode == old(image.freeinode)
    ensures ok ==> image.Valid() && Stores(image.blocks, image.inodes, files[ROOTINO := files[ROOTINO] + entry])
    ensures ok ==> (n + 1) * DIRENT <= MAXFILE * BSIZE
    ensures !ok ==> (n + 1) * DIRENT > MAXFILE * BSIZE || image.freeblock == image.size
    ensures image.freeblock <= old(image.freeblock) + 2
  {
    hide FsOk, Wrote, Stays, SizeIs, Solid, Blank, Tight, Stores, Spans;
    SizeOf(image.blocks, image.inodes, files, ROOTINO);
    ok := image.Iappend(ROOTINO, entry);
    EntrySpan(n);
    if ok {
      StoresAppended(old(image.blocks), old(image.inodes), image.blocks, image.inodes, files, ROOTINO, entry);
    }
  }

  /** One file of the command line: its inode, its entry in the root directory, and its contents. */
  method AddFile(image: Image, name: seq<nat>, bytes: seq<nat>, ghost files: map<nat, seq<nat>>, ghost n: nat)
    returns (ok: bool)
    requires image.Valid() && Stores(image.blocks, image.inodes, files) && ROOTINO in files
    requires |files[ROOTINO]| == n * DIRENT && image.freeinode !in files
    modifies image
    ensures image.freeinode == old(image.freeinode) + 1
    ensures ok ==> image.Valid() && Stores(image.blocks, image.inodes,
        files[old(image.freeinode) := bytes][ROOTINO := files[ROOTINO] + Entry(old(image.freeinode), name)])
    ensures ok ==> (n + 1) * DIRENT <= MAXFILE * BSIZE && |bytes| <= MAXFILE * BSIZE
    ensures !ok ==>
      (n + 1) * DIRENT > MAXFILE * BSIZE || |bytes| > MAXFILE * BSIZE || image.freeblock == image.size
    ensures image.freeblock <= old(image.freeblock) + 2 * (1 + Chunks(|bytes|))
  {
    hide FsOk, Solid, Blank, Tight, Stores, Chunks;
    StoresKeys(image.blocks, image.inodes, files);
    StoresFresh(image.blocks, image.inodes, files, image.freeinode);
    var i := image.Ialloc();
    ok := AddEntry(image, Entry(i, name), files[i := []], n);
    if ok {
      ghost var more := files[i := []][ROOTINO := files[ROOTINO] + Entry(i, name)];
      ok := AppendFile(image, i, bytes, more);
      assert more[i := bytes] == files[i := bytes][ROOTINO := files[ROOTINO] + Entry(i, name)];
    }
  }

  lemma StoresKeys(blocks: seq<Block>, inodes: Inodes, files: map<nat, seq<nat>>)
    requires Stores(blocks, inodes, files)
    ensures inodes.Keys == files.Keys
  {
  }

  lemma {:induction false} AppendsGrow(contents: seq<seq<nat>>, k: nat, n: nat)
    requires k <= n <= |contents|
    ensures Appends(contents, k) <= Appends(contents, n)
  {
    if k < n {
      AppendsGrow(contents, k, n - 1);
    }
  }

  lemma TreeNext(names: seq<seq<nat>>, contents: seq<seq<nat>>, k: nat)
    requires k < |names| == |contents|
    ensures var files, i := Tree(names, contents, k), ROOTINO + 1 + k;
      Tree(names, contents, k + 1) == files[i := contents[k]][ROOTINO := files[ROOTINO] + Entry(i, names[k])]
  {
    hide Entry;
  }

  lemma LargeAt(names: seq<seq<nat>>, contents: seq<seq<nat>>, k: nat)
    requires k < |names| == |contents|
    ensures (k + 3) * DIRENT > MAXFILE * BSIZE || |contents[k]| > MAXFILE * BSIZE ==> TooLarge(names, contents)
  {
  }

  ghost predicate NoneAbove(contents: seq<seq<nat>>, k: nat) {
    k <= |contents| && forall j | 0 <= j < k :: |contents[j]| <= MAXFILE * BSIZE
  }

  lemma NoneLarge(names: seq<seq<nat>>, contents: seq<seq<nat>>, k: nat)
    requires |names| == |contents|
    ensures k == |names| && NoneAbove(contents, k) && (k + 2) * DIRENT <= MAXFILE * BSIZE ==> !TooLarge(names, contents)
  {
  }

  lemma FirstAppends(contents: seq<seq<nat>>)
    ensures Appends(contents, 0) == 2 && NoneAbove(contents, 0)
  {
  }

  lemma NextAppends(contents: seq<seq<nat>>, k: nat)
    requires k < |contents|
    ensures Appends(contents, k + 1) == Appends(contents, k) + 1 + Chunks(|contents[k]|)
    ensures NoneAbove(contents, k) && |contents[k]| <= MAXFILE * BSIZE ==> NoneAbove(contents, k + 1)
  {
    hide Chunks;
  }

  /** The loop over the command line. */
  method AddFiles(image: Image, names: seq<seq<nat>>, contents: seq<seq<nat>>) returns (ok: bool)
    requires image.Valid() && |names| == |contents| && image.freeinode == ROOTINO + 1
    requires Stores(image.blocks, image.inodes, Tree(names, contents, 0)) && image.freeblock <= image.nmeta + 4
    modifies image
    ensures !ok ==> TooLarge(names, contents) || image.size <= image.nmeta + 2 * Appends(contents, |names|)
    ensures ok ==> !TooLarge(names, contents) && image.Valid()
    ensures ok ==> Stores(image.blocks, image.inodes, Tree(names, contents, |names|))
  {
    hide FsOk, Solid, Blank, Tight, Stores, Chunks, Entry, Tree, TooLarge, Directory, Appends, NoneAbove;
    ok := true;
    var k := 0;
    FirstAppends(contents);
    while ok && k < |names|
      invariant 0 <= k <= |names| && image.freeinode == ROOTINO + 1 + k
      invariant ok ==> image.Valid() && Stores(image.blocks, image.inodes, Tree(names, contents, k))
      invariant ok ==> (k + 2) * DIRENT <= MAXFILE * BSIZE && image.freeblock <= image.nmeta + 2 * Appends(contents, k)
      invariant ok ==> NoneAbove(contents, k)
      invariant !ok ==> TooLarge(names, contents) || image.size <= image.nmeta + 2 * Appends(contents, |names|)
      decreases |names| - k, ok
    {
      ok := AddFile(image, names[k], contents[k], Tree(names, contents, k), k + 2);
      AppendsGrow(contents, k + 1, |names|);
      TreeNext(names, contents, k);
      LargeAt(names, contents, k);
      NextAppends(contents, k);
      k := k + 1;
    }
    NoneLarge(names, contents, k);
  }

  /** mkfs: the root directory with an entry for every file, and the files; then the size of the directory is
      fixed. It fails, where mkfs stops, only for a file too large or for lack of sectors. */
  method Make(nmeta: nat, size: nat, names: seq<seq<nat>>, contents: seq<seq<nat>>) returns (ok: bool, image: Image)
    requires 0 < nmeta <= size && |names| == |contents|
    ensures fresh(image) && image.nmeta == nmeta && image.size == size
    ensures !ok ==> TooLarge(names, contents) || size <= nmeta + 2 * Appends(contents, |names|)
    ensures ok ==> !TooLarge(names, contents) && Made(image, names, contents)
    ensures ok ==> (image.Ready() <==> (|names| + 2) * DIRENT < MAXFILE * BSIZE)
    ensures ok ==> (Solid(image.blocks, image.inodes) <==> (|names| + 2) * DIRENT % BSIZE != 0)
  {
    hide FsOk, Solid, Blank, Tight, Stores, Chunks, ShowsAll, Made, TooLarge;
    image := new Image(nmeta, size);
    StoresNone(image.blocks);
    StoresFresh(image.blocks, map[], map[], ROOTINO);
    AppendsGrow(contents, 0, |names|);
    var root := image.Ialloc();
    ok := AddEntry(image, Entry(ROOTINO, DOT), map[ROOTINO := []], 0);
    if ok {
      assert [] + Entry(ROOTINO, DOT) == Entry(ROOTINO, DOT);
      assert map[ROOTINO := []][ROOTINO := Entry(ROOTINO, DOT)] == map[ROOTINO := Entry(ROOTINO, DOT)];
      ok := AddEntry(image, Entry(ROOTINO, DOTDOT), map[ROOTINO := Entry(ROOTINO, DOT)], 1);
    }
    if ok {
      assert map[ROOTINO := Entry(ROOTINO, DOT)][ROOTINO := Directory(names, 0)] == Tree(names, contents, 0);
      ok := AddFiles(image, names, contents);
    }
    if ok {
      ghost var inodes := image.inodes;
      SizeOf(image.blocks, inodes, Tree(names, contents, |names|), ROOTINO);
      image.FixRoot(ROOTINO);
      MadeFrom(image, inodes, names, contents);
    }
  }

  /** The image shows the root directory with an entry for every file, zeros up to its size, and the files. */
  ghost predicate Made(image: Image, names: seq<seq<nat>>, contents: seq<seq<nat>>)
    requires |names| == |contents|
    reads image
  {
    var files := Tree(names, contents, |names|);
    && image.inodes.Keys == files.Keys
    && (forall i | i in files :: ShowsAll(image.blocks, image.inodes, i, files[i]))
    && (forall i | i in files && i != ROOTINO :: image.inodes[i].size == |files[i]|)
    && image.inodes[ROOTINO].size == ((|names| + 2) * DIRENT / BSIZE + 1) * BSIZE
    && (forall i | i in files :: NoHole(image.blocks, image.inodes, i, 0, |files[i]|))
  }

  lemma MadeFrom(image: Image, inodes: Inodes, names: seq<seq<nat>>, contents: seq<seq<nat>>)
    requires |names| == |contents| && Stores(image.blocks, inodes, Tree(names, contents, |names|))
    requires Solid(image.blocks, inodes)
    requires ROOTINO in inodes && inodes[ROOTINO].size == (|names| + 2) * DIRENT
    requires var n := (inodes[ROOTINO].size / BSIZE + 1) * BSIZE;
      image.inodes == inodes[ROOTINO := inodes[ROOTINO].(size := n)]
    ensures Made(image, names, contents)
  {
    hide Tree, At;
    var files := Tree(names, contents, |names|);
    forall i, a: nat | i in files
      ensures FileByte(image.blocks, image.inodes, i, a) == FileByte(image.blocks, inodes, i, a)
    {
      SizeOnly(image.blocks, inodes, ROOTINO, image.inodes[ROOTINO].size, i, a);
    }
    forall i, a: nat | i in files && a < |files[i]| ensures HasBlock(image.blocks, image.inodes, i, a) {
      SizeOnlyAt(image.blocks, inodes, ROOTINO, image.inodes[ROOTINO].size, Data(i, a / BSIZE));
      assert HasBlock(image.blocks, inodes, i, a);
    }
  }

  lemma SizeOnlyAt(blocks: seq<Block>, inodes: Inodes, i: nat, size: nat, r: Ref)
    requires i in inodes
    ensures At(blocks, inodes[i := inodes[i].(size := size)], r) == At(blocks, inodes, r)
  {
  }

  lemma SizeOnly(blocks: seq<Block>, inodes: Inodes, i: nat, n: nat, j: nat, a: nat)
    requires i in inodes
    ensures FileByte(blocks, inodes[i := inodes[i].(size := n)], j, a) == FileByte(blocks, inodes, j, a)
  {
  }

  lemma StoresNone(blocks: seq<Block>)
    ensures Stores(blocks, map[], map[])
  {
  }

  /** With 62 files, beside . and .. , the root directory has 64 entries and gets a hole. */
  method FullRoot(names: seq<seq<nat>>) returns (image: Image)
    requires |names| == 62
    ensures fresh(image) && image.Ready() && !Solid(image.blocks, image.inodes)
  {
    hide FsOk, Solid, Made;
    var contents := seq(62, _ => []);
    var ok;
    ok, image := Make(NMETA, FSSIZE, names, contents);
    EmptyFiles(contents, 62);
    assert ok;
  }

  lemma {:induction false} EmptyFiles(contents: seq<seq<nat>>, k: nat)
    requires k <= |contents| && forall j | 0 <= j < |contents| :: contents[j] == []
    ensures Appends(contents, k) == 2 + k
  {
    if k > 0 {
      EmptyFiles(contents, k - 1);
    }
  }
}
