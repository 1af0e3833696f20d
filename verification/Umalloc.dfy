/**
 The user-level allocator of user/umalloc.c: an address-ordered circular list of free
 blocks, next-fit search, and coalescing on free.

 Addresses count header units of HEADER_BYTES bytes. Memory is a map from a unit to the
 header stored there. The static header `base` has size 0 and lies below every address
 that sbrk returns. Address 0 stands for the null pointer.
 */
module Umalloc {
  import opened Common

  const HEADER_BYTES: nat := 16
  const MIN_GROW: nat := 4096

  datatype Header = Header(ptr: int, size: nat)

  type Memory = map<int, Header>

  /** Units needed for nbytes of payload and one header; no smaller count would do. */
  function Units(nbytes: nat): (n: nat)
    ensures n >= 1 && (n - 1) * HEADER_BYTES >= nbytes
    ensures n >= 2 ==> (n - 2) * HEADER_BYTES < nbytes
  {
    (nbytes + HEADER_BYTES - 1) / HEADER_BYTES + 1
  }

  /** Units that morecore asks sbrk for. */
  function Growth(nunits: nat): nat {
    if nunits < MIN_GROW then MIN_GROW else nunits
  }

  /** sbrk takes a 32-bit int, so the byte count is truncated modulo 2^32. */
  function SbrkArgument(nunits: nat): int {
    var bytes := (Growth(nunits) * HEADER_BYTES) % 0x1_0000_0000;
    if bytes < 0x8000_0000 then bytes else bytes - 0x1_0000_0000
  }

  /** For every 32-bit request, sbrk is asked for the bytes needed exactly when the request
      is at most 2^31 - 32 bytes. Above that it is asked to shrink the process, or for nothing. */
  lemma SbrkArgumentFaithful(nbytes: nat)
    requires nbytes < 0x1_0000_0000
    ensures SbrkArgument(Units(nbytes)) == Growth(Units(nbytes)) * HEADER_BYTES <==> nbytes <= 0x7fff_ffe0
    ensures nbytes > 0x7fff_ffe0 ==> SbrkArgument(Units(nbytes)) <= HEADER_BYTES
  {
    var n := Units(nbytes);
    if nbytes <= 0x7fff_ffe0 {
      assert n <= 0x7ff_ffff;
    } else {
      assert 0x800_0000 <= n <= 0x1000_0001;
    }
  }

  /** For 2^31 bytes it is asked to take away all but 16 bytes of as much. */
  lemma TwoGigabytes()
    ensures SbrkArgument(Units(0x8000_0000)) == -0x7fff_fff0
  {
  }

  /** A block of memory: its header's address and its size in units, header included. */
  datatype Block = Block(addr: int, size: nat) {
    ghost function End(): int { addr + size }
    ghost predicate Has(u: int) { addr <= u < addr + size }
    ghost predicate Apart(b: Block) { End() <= b.addr || b.End() <= addr }
  }

  /** The list position after i, the last wrapping to the first. */
  ghost function After(n: nat, i: nat): (k: nat)
    requires i < n
    ensures k < n
  {
    if i + 1 < n then i + 1 else 0
  }

  ghost predicate LinkedAt(m: Memory, free: seq<Block>, i: nat)
    requires i < |free|
  {
    free[i].addr in m && m[free[i].addr] == Header(free[After(|free|, i)].addr, free[i].size)
  }

  /** The circular list in memory is the sequence `free`, the last node linked back to the first. */
  ghost predicate Linked(m: Memory, free: seq<Block>) {
    forall i: nat | i < |free| :: LinkedAt(m, free, i)
  }

  /** Address-ordered and disjoint. */
  ghost predicate Ordered(free: seq<Block>) {
    forall i, j | 0 <= i < j < |free| :: free[i].addr < free[j].addr && free[i].End() <= free[j].addr
  }

  ghost predicate Touching(free: seq<Block>, i: nat)
    requires i + 1 < |free|
  {
    free[i].End() == free[i + 1].addr
  }

  ghost predicate InFree(free: seq<Block>, u: int) {
    exists i :: 0 <= i < |free| && free[i].Has(u)
  }

  ghost predicate InUsed(used: map<int, nat>, u: int) {
    exists x :: x in used && Block(x, used[x]).Has(u)
  }

  /** The free list starts at base, is address-ordered and disjoint; live blocks are disjoint;
      free and live blocks together are the arena, without overlap. */
  ghost predicate Tiled(base: int, free: seq<Block>, used: map<int, nat>, arena: set<int>) {
    && |free| >= 1 && free[0] == Block(base, 0)
    && Ordered(free)
    && (forall i | 1 <= i < |free| :: free[i].size >= 1)
    && (forall x | x in used :: used[x] >= 1)
    && (forall x, y | x in used && y in used && x != y :: Block(x, used[x]).Apart(Block(y, used[y])))
    && (forall i, x | 0 <= i < |free| && x in used :: free[i].Apart(Block(x, used[x])))
    && (forall u :: u in arena <==> InFree(free, u) || InUsed(used, u))
    && (forall u | u in arena :: u > base)
  }

  /** No two free blocks are adjacent: everything that can be merged has been. */
  ghost predicate Coalesced(free: seq<Block>) {
    forall i: nat | i + 1 < |free| :: !Touching(free, i)
  }

  /** A live block lies above base, and its header is no free block's header. */
  lemma UsedApart(base: int, free: seq<Block>, used: map<int, nat>, arena: set<int>, x: int)
    requires Tiled(base, free, used, arena) && x in used
    ensures x > base
    ensures forall i | 0 <= i < |free| :: free[i].addr != x
  {
    assert Block(x, used[x]).Has(x);
    assert x in arena;
  }

  /** No unit is both free and live: the free units are exactly the rest of the arena. */
  lemma FreeIsTheRest(base: int, free: seq<Block>, used: map<int, nat>, arena: set<int>, u: int)
    requires Tiled(base, free, used, arena)
    ensures InFree(free, u) <==> u in arena && !InUsed(used, u)
  {
    if InUsed(used, u) {
      var x :| x in used && Block(x, used[x]).Has(u);
      forall i | 0 <= i < |free| ensures !free[i].Has(u) {
        assert free[i].Apart(Block(x, used[x]));
      }
    }
  }

  /** Position t is where a block at bp belongs: after free[t], before free[t + 1]. */
  ghost predicate Slot(free: seq<Block>, bp: int, t: nat) {
    t < |free| && free[t].addr < bp && (t + 1 < |free| ==> bp < free[t + 1].addr)
  }

  lemma {:induction false} SlotExists(free: seq<Block>, bp: int) returns (t: nat)
    requires |free| >= 1 && free[0].addr < bp && forall i | 0 <= i < |free| :: free[i].addr != bp
    ensures Slot(free, bp, t)
  {
    t := 0;
    while t + 1 < |free| && free[t + 1].addr < bp
      invariant t < |free| && free[t].addr < bp
    {
      t := t + 1;
    }
  }

  lemma SlotUnique(free: seq<Block>, bp: int, s: nat, t: nat)
    requires Ordered(free) && Slot(free, bp, s) && Slot(free, bp, t)
    ensures s == t
  {
    forall i, j | 0 <= i <= j < |free| ensures free[i].addr <= free[j].addr {
    }
  }

  // The two surgeries that free is made of: insert a block, merge two neighbours.

  ghost function Insert(free: seq<Block>, b: Block, t: nat): seq<Block>
    requires t < |free|
  {
    free[..t + 1] + [b] + free[t + 1..]
  }

  ghost function Merge(free: seq<Block>, i: nat): seq<Block>
    requires i + 1 < |free|
  {
    free[..i] + [Block(free[i].addr, free[i].size + free[i + 1].size)] + free[i + 2..]
  }

  lemma InsertKeepsTiling(base: int, free: seq<Block>, used: map<int, nat>, arena: set<int>, bp: int, t: nat)
    requires Tiled(base, free, used, arena) && bp in used && Slot(free, bp, t)
    ensures Tiled(base, Insert(free, Block(bp, used[bp]), t), used - {bp}, arena)
  {
    var b := Block(bp, used[bp]);
    var free', used' := Insert(free, b, t), used - {bp};
    InsertIsOrdered(free, b, t);
    forall i, x | 0 <= i < |free'| && x in used' ensures free'[i].Apart(Block(x, used'[x])) {
      assert x in used && used'[x] == used[x] && x != bp;
      if i == t + 1 {
        assert Block(bp, used[bp]).Apart(Block(x, used[x]));
      } else {
        assert free'[i] == free[if i <= t then i else i - 1];
      }
    }
    forall u ensures u in arena <==> InFree(free', u) || InUsed(used', u) {
      InsertUnits(free, used, bp, t, u);
    }
  }

  lemma InsertIsOrdered(free: seq<Block>, b: Block, t: nat)
    requires Ordered(free) && Slot(free, b.addr, t) && b.size >= 1
    requires forall i | 0 <= i < |free| :: free[i].Apart(b)
    ensures Ordered(Insert(free, b, t))
  {
    forall i | 0 <= i < |free| ensures i <= t ==> free[i].addr <= free[t].addr {
    }
    forall i | t + 1 <= i < |free| ensures free[t + 1].addr <= free[i].addr {
    }
  }

  lemma InsertUnits(free: seq<Block>, used: map<int, nat>, bp: int, t: nat, u: int)
    requires bp in used && t < |free|
    ensures InFree(Insert(free, Block(bp, used[bp]), t), u) || InUsed(used - {bp}, u)
       <==> InFree(free, u) || InUsed(used, u)
  {
    var free', used' := Insert(free, Block(bp, used[bp]), t), used - {bp};
    assert free'[t + 1] == Block(bp, used[bp]);
    if InFree(free, u) {
      var i :| 0 <= i < |free| && free[i].Has(u);
      assert free'[if i <= t then i else i + 1] == free[i];
    } else if InUsed(used, u) {
      var x :| x in used && Block(x, used[x]).Has(u);
      assert x == bp || x in used';
    }
    if InFree(free', u) {
      var i :| 0 <= i < |free'| && free'[i].Has(u);
      assert i != t + 1 ==> free'[i] == free[if i <= t then i else i - 1];
    } else if InUsed(used', u) {
      var x :| x in used' && Block(x, used'[x]).Has(u);
      assert x in used;
    }
  }

  lemma MergeKeepsTiling(base: int, free: seq<Block>, used: map<int, nat>, arena: set<int>, i: nat)
    requires Tiled(base, free, used, arena) && 1 <= i && i + 1 < |free| && Touching(free, i)
    ensures Tiled(base, Merge(free, i), used, arena)
  {
    hide InFree, InUsed, Merge;
    var free' := Merge(free, i);
    MergeAt(free, i, 0);
    forall k | 0 <= k < |free'|
      ensures free'[k].addr == free[if k <= i then k else k + 1].addr && (k > 0 ==> free'[k].size >= 1)
    {
      MergeAt(free, i, k);
    }
    forall k, x | 0 <= k < |free'| && x in used ensures free'[k].Apart(Block(x, used[x])) {
      MergeAt(free, i, k);
      assert free[i].Apart(Block(x, used[x])) && free[i + 1].Apart(Block(x, used[x]));
    }
    MergeOrdered(free, i);
    forall u ensures InFree(free', u) <==> InFree(free, u) {
      MergeUnits(free, i, u);
    }
  }

  lemma MergeOrdered(free: seq<Block>, i: nat)
    requires Ordered(free) && i + 1 < |free| && Touching(free, i)
    ensures Ordered(Merge(free, i))
  {
    hide Merge;
    var free' := Merge(free, i);
    MergeAt(free, i, 0);
    forall j, k | 0 <= j < k < |free'| ensures free'[j].addr < free'[k].addr && free'[j].End() <= free'[k].addr {
      MergeAt(free, i, j);
      MergeAt(free, i, k);
    }
  }

  lemma MergeUnits(free: seq<Block>, i: nat, u: int)
    requires i + 1 < |free| && Touching(free, i)
    ensures InFree(Merge(free, i), u) <==> InFree(free, u)
  {
    var free' := Merge(free, i);
    assert free'[i] == Block(free[i].addr, free[i].size + free[i + 1].size);
    if InFree(free, u) {
      var k :| 0 <= k < |free| && free[k].Has(u);
      assert free'[if k <= i then k else k - 1].Has(u);
    }
    if InFree(free', u) {
      var k :| 0 <= k < |free'| && free'[k].Has(u);
      assert free[if k < i then k else if k > i then k + 1 else if u < free[i + 1].addr then i else i + 1].Has(u);
    }
  }

  /** Linking changes in memory that go with the two surgeries. */
  ghost function InsertMem(m: Memory, p: int, bp: int): Memory
    requires p in m && bp in m
  {
    m[bp := m[bp].(ptr := m[p].ptr)][p := m[p].(ptr := bp)]
  }

  ghost function MergeMem(m: Memory, p: int): Memory
    requires p in m && m[p].ptr in m
  {
    m[p := Header(m[m[p].ptr].ptr, m[p].size + m[m[p].ptr].size)]
  }

  lemma InsertLinks(m: Memory, free: seq<Block>, b: Block, t: nat)
    requires t < |free| && Ordered(free) && Linked(m, free) && LinkedAt(m, free, t)
    requires b.addr in m && m[b.addr].size == b.size
    requires forall i | 0 <= i < |free| :: free[i].addr != b.addr
    ensures Linked(InsertMem(m, free[t].addr, b.addr), Insert(free, b, t))
  {
    var m', free' := InsertMem(m, free[t].addr, b.addr), Insert(free, b, t);
    InsertAt(free, b, t, 0);
    forall i: nat | i < |free'| ensures LinkedAt(m', free', i) {
      if i != t + 1 {
        assert LinkedAt(m, free, if i <= t then i else i - 1);
      }
      InsertLinkedAt(m, free, b, t, i);
    }
  }

  lemma InsertAt(free: seq<Block>, b: Block, t: nat, i: nat)
    requires t < |free| && i <= |free|
    ensures |Insert(free, b, t)| == |free| + 1
    ensures Insert(free, b, t)[i] == if i <= t then free[i] else if i == t + 1 then b else free[i - 1]
  {
  }

  lemma InsertLinkedAt(m: Memory, free: seq<Block>, b: Block, t: nat, i: nat)
    requires t < |free| && i <= |free| && Ordered(free) && LinkedAt(m, free, t)
    requires b.addr in m && m[b.addr].size == b.size && forall i | 0 <= i < |free| :: free[i].addr != b.addr
    requires i != t + 1 ==> LinkedAt(m, free, if i <= t then i else i - 1)
    ensures |Insert(free, b, t)| == |free| + 1
    ensures LinkedAt(InsertMem(m, free[t].addr, b.addr), Insert(free, b, t), i)
  {
    hide Insert, Ordered;
    InsertAt(free, b, t, i);
    InsertAt(free, b, t, After(|free| + 1, i));
    if i != t + 1 {
      AddrsDiffer(free, t, if i <= t then i else i - 1);
    }
  }

  lemma MergeLinks(m: Memory, free: seq<Block>, i: nat)
    requires i + 1 < |free| && Ordered(free) && Linked(m, free)
    ensures LinkedAt(m, free, i) && LinkedAt(m, free, i + 1)
    ensures Linked(MergeMem(m, free[i].addr), Merge(free, i))
  {
    assert LinkedAt(m, free, i) && LinkedAt(m, free, i + 1);
    var m', free' := MergeMem(m, free[i].addr), Merge(free, i);
    forall k: nat | k < |free'| ensures LinkedAt(m', free', k) {
      MergeLinkedAt(m, free, i, k);
    }
  }

  lemma MergeLinkedAt(m: Memory, free: seq<Block>, i: nat, k: nat)
    requires i + 1 < |free| && k + 1 < |free| && Ordered(free) && Linked(m, free)
    ensures LinkedAt(m, free, i) && LinkedAt(m, free, i + 1)
    ensures LinkedAt(MergeMem(m, free[i].addr), Merge(free, i), k)
  {
    var j := if k <= i then k else k + 1;
    assert LinkedAt(m, free, i) && LinkedAt(m, free, i + 1) && LinkedAt(m, free, j);
    MergeAt(free, i, k);
    MergeAt(free, i, After(|free| - 1, k));
    hide Merge, Linked, Ordered;
    AddrsDiffer(free, i, j);
  }

  lemma MergeAt(free: seq<Block>, i: nat, k: nat)
    requires i + 1 < |free| && k + 1 < |free|
    ensures |Merge(free, i)| == |free| - 1
    ensures Merge(free, i)[k] ==
      if k < i then free[k] else if k == i then Block(free[i].addr, free[i].size + free[i + 1].size) else free[k + 1]
  {
  }

  lemma AddrsDiffer(free: seq<Block>, i: nat, j: nat)
    requires Ordered(free) && i < |free| && j < |free|
    ensures free[i].addr == free[j].addr ==> i == j
  {
  }

  /** The whole of free on the list: insert at slot t, then merge with the next block and with the
      previous one where they are adjacent. */
  ghost function AfterFree(free: seq<Block>, b: Block, t: nat): seq<Block>
    requires t < |free|
  {
    var inserted := Insert(free, b, t);
    var joined := if t + 1 < |free| && Touching(inserted, t + 1) then Merge(inserted, t + 1) else inserted;
    if Touching(joined, t) then Merge(joined, t) else joined
  }

  lemma MergeTouching(free: seq<Block>, i: nat, k: nat)
    requires i + 1 < |free| && k + 2 < |free|
    ensures Touching(Merge(free, i), k) <==>
      if k < i then Touching(free, k)
      else if k == i then free[i].addr + free[i].size + free[i + 1].size == free[i + 2].addr
      else Touching(free, k + 1)
  {
  }

  lemma InsertTouching(free: seq<Block>, b: Block, t: nat, k: nat)
    requires t < |free| && k < |free| && k != t && k != t + 1
    ensures Touching(Insert(free, b, t), k) <==> Touching(free, if k < t then k else k - 1)
  {
  }

  lemma AfterFreeIsCoalesced(free: seq<Block>, b: Block, t: nat)
    requires Ordered(free) && Coalesced(free) && t < |free|
    ensures Coalesced(AfterFree(free, b, t))
  {
    var inserted := Insert(free, b, t);
    forall k: nat | k < |free| && k != t && k != t + 1 ensures !Touching(inserted, k) {
      InsertTouching(free, b, t, k);
    }
    var joined := if t + 1 < |free| && Touching(inserted, t + 1) then Merge(inserted, t + 1) else inserted;
    forall k: nat | k + 1 < |joined| && k != t ensures !Touching(joined, k) {
      if t + 1 < |free| && Touching(inserted, t + 1) {
        MergeTouching(inserted, t + 1, k);
        assert k == t + 1 ==> !Touching(free, t + 1);
      }
    }
    var result := AfterFree(free, b, t);
    forall k: nat | k + 1 < |result| ensures !Touching(result, k) {
      if Touching(joined, t) {
        MergeTouching(joined, t, k);
        assert k == t ==> !Touching(joined, t + 1);
      }
    }
  }

  lemma AfterFreeIsTiled(base: int, free: seq<Block>, used: map<int, nat>, arena: set<int>, bp: int, t: nat)
    requires Tiled(base, free, used, arena) && bp in used && Slot(free, bp, t)
    ensures Tiled(base, AfterFree(free, Block(bp, used[bp]), t), used - {bp}, arena)
  {
    var b := Block(bp, used[bp]);
    var inserted := Insert(free, b, t);
    InsertKeepsTiling(base, free, used, arena, bp, t);
    var joined := inserted;
    if t + 1 < |free| && Touching(inserted, t + 1) {
      MergeKeepsTiling(base, inserted, used - {bp}, arena, t + 1);
      joined := Merge(inserted, t + 1);
    }
    if Touching(joined, t) {
      assert t >= 1;
      MergeKeepsTiling(base, joined, used - {bp}, arena, t);
    }
  }

  lemma AfterFreeKeepsPrevious(free: seq<Block>, b: Block, t: nat)
    requires t < |free|
    ensures t < |AfterFree(free, b, t)| && AfterFree(free, b, t)[t].addr == free[t].addr
  {
    var inserted := Insert(free, b, t);
    assert inserted[t] == free[t];
    var joined := if t + 1 < |free| && Touching(inserted, t + 1) then Merge(inserted, t + 1) else inserted;
    assert joined[t] == free[t];
  }

  ghost predicate Covers(free: seq<Block>, b: Block) {
    exists i :: 0 <= i < |free| && free[i].addr <= b.addr && b.End() <= free[i].End()
  }

  /** The returned block ends up inside one free block, whatever it merged with. */
  lemma AfterFreeCovers(free: seq<Block>, b: Block, t: nat)
    requires t < |free|
    ensures Covers(AfterFree(free, b, t), b)
  {
    var inserted := Insert(free, b, t);
    assert inserted[t + 1] == b;
    var joined := if t + 1 < |free| && Touching(inserted, t + 1) then Merge(inserted, t + 1) else inserted;
    assert joined[t + 1].addr == b.addr && joined[t + 1].End() >= b.End();
    if Touching(joined, t) {
      assert Merge(joined, t)[t] == Block(joined[t].addr, joined[t].size + joined[t + 1].size);
    }
  }

  // Allocation takes a whole free block, or the tail of a larger one.

  ghost function Take(free: seq<Block>, i: nat, n: nat): seq<Block>
    requires i < |free| && n <= free[i].size
  {
    if free[i].size == n then free[..i] + free[i + 1..]
    else free[i := Block(free[i].addr, free[i].size - n)]
  }

  lemma TakeKeepsTiling(base: int, free: seq<Block>, used: map<int, nat>, arena: set<int>, i: nat, n: nat)
    requires Tiled(base, free, used, arena) && 1 <= i < |free| && 1 <= n <= free[i].size
    ensures var x := free[i].End() - n;
      x !in used && Tiled(base, Take(free, i, n), used[x := n], arena)
  {
    var x := free[i].End() - n;
    var free', used' := Take(free, i, n), used[x := n];
    assert free[i].Has(x);
    FreeIsTheRest(base, free, used, arena, x);
    assert x in used ==> Block(x, used[x]).Has(x);
    forall k | 0 <= k < |free'| ensures free'[k].Apart(Block(x, n)) {
      assert free'[k] == free[if free[i].size == n && k >= i then k + 1 else k] || k == i;
    }
    forall y | y in used ensures Block(y, used[y]).Apart(Block(x, n)) {
      assert free[i].Apart(Block(y, used[y]));
    }
    TakeApart(free, used, i, n);
    TakeIsOrdered(free, i, n);
    forall k, y | 0 <= k < |free'| && y in used' ensures free'[k].Apart(Block(y, used'[y])) {
      assert y == x || (y in used && used'[y] == used[y]);
    }
    forall y, z | y in used' && z in used' && y != z ensures Block(y, used'[y]).Apart(Block(z, used'[z])) {
      assert y == x || (y in used && used'[y] == used[y]);
      assert z == x || (z in used && used'[z] == used[z]);
    }
    forall u ensures u in arena <==> InFree(free', u) || InUsed(used', u) {
      TakeUnits(free, used, i, n, u);
    }
  }

  lemma TakeIsOrdered(free: seq<Block>, i: nat, n: nat)
    requires Ordered(free) && i < |free| && n <= free[i].size
    ensures Ordered(Take(free, i, n))
  {
    var free' := Take(free, i, n);
    forall k | 0 <= k < |free'|
      ensures var k0 := if free[i].size == n && k >= i then k + 1 else k;
        free'[k].addr == free[k0].addr && free'[k].End() <= free[k0].End()
    {
    }
  }

  lemma TakeApart(free: seq<Block>, used: map<int, nat>, i: nat, n: nat)
    requires i < |free| && n <= free[i].size
    requires forall k, y | 0 <= k < |free| && y in used :: free[k].Apart(Block(y, used[y]))
    ensures forall k, y | 0 <= k < |Take(free, i, n)| && y in used :: Take(free, i, n)[k].Apart(Block(y, used[y]))
  {
    var free' := Take(free, i, n);
    forall k, y | 0 <= k < |free'| && y in used ensures free'[k].Apart(Block(y, used[y])) {
      var k0 := if free[i].size == n && k >= i then k + 1 else k;
      assert free[k0].Apart(Block(y, used[y]));
      assert free'[k].addr == free[k0].addr && free'[k].End() <= free[k0].End();
    }
  }

  lemma TakeUnits(free: seq<Block>, used: map<int, nat>, i: nat, n: nat, u: int)
    requires i < |free| && n <= free[i].size && free[i].End() - n !in used
    ensures InFree(Take(free, i, n), u) || InUsed(used[free[i].End() - n := n], u)
       <==> InFree(free, u) || InUsed(used, u)
  {
    var x := free[i].End() - n;
    var free', used' := Take(free, i, n), used[x := n];
    if InFree(free, u) {
      var k :| 0 <= k < |free| && free[k].Has(u);
      if k == i && u >= x {
        assert x in used' && Block(x, used'[x]).Has(u);
      } else {
        assert free'[if free[i].size == n && k > i then k - 1 else k].Has(u);
      }
    } else if InUsed(used, u) {
      var y :| y in used && Block(y, used[y]).Has(u);
      assert y in used' && used'[y] == used[y];
    }
    if InFree(free', u) {
      var k :| 0 <= k < |free'| && free'[k].Has(u);
      assert free[if free[i].size == n && k >= i then k + 1 else k].Has(u);
    } else if InUsed(used', u) {
      var y :| y in used' && Block(y, used'[y]).Has(u);
      assert y == x ==> free[i].Has(u);
      assert y != x ==> Block(y, used[y]).Has(u);
    }
  }

  lemma TakeIsCoalesced(free: seq<Block>, i: nat, n: nat)
    requires Ordered(free) && Coalesced(free) && i < |free| && 1 <= n <= free[i].size
    ensures Coalesced(Take(free, i, n))
  {
    var free' := Take(free, i, n);
    forall k: nat | k + 1 < |free'| ensures !Touching(free', k) {
      assert k + 1 < |free| && !Touching(free, k);
      assert k + 2 < |free| ==> !Touching(free, k + 1);
      assert free[k].End() <= free[k + 1].addr;
    }
  }

  /** Memory fresh from sbrk joins the arena as one live block, which morecore then frees. */
  lemma GrowKeepsTiling(base: int, free: seq<Block>, used: map<int, nat>, arena: set<int>, b: Block, arena': set<int>)
    requires Tiled(base, free, used, arena) && b.size >= 1 && b.addr > base
    requires forall u | b.Has(u) :: u !in arena
    requires forall u :: u in arena' <==> u in arena || b.Has(u)
    ensures b.addr !in used && Tiled(base, free, used[b.addr := b.size], arena')
  {
    var used' := used[b.addr := b.size];
    assert b.Has(b.addr) && b.Has(b.End() - 1);
    forall i | 0 <= i < |free| ensures free[i].Apart(b) {
      assert i > 0 ==> free[i].Has(free[i].addr);
      assert i > 0 ==> InFree(free, free[i].addr);
      assert free[i].Has(b.addr) ==> InFree(free, b.addr);
    }
    forall x | x in used ensures x != b.addr && Block(x, used[x]).Apart(b) {
      assert Block(x, used[x]).Has(x) && InUsed(used, x);
      assert Block(x, used[x]).Has(b.addr) ==> InUsed(used, b.addr);
    }
    forall u ensures InUsed(used', u) <==> InUsed(used, u) || b.Has(u) {
      if InUsed(used, u) {
        var x :| x in used && Block(x, used[x]).Has(u);
        assert x in used' && used'[x] == used[x];
      }
      if b.Has(u) {
        assert b.addr in used' && Block(b.addr, used'[b.addr]).Has(u);
      }
      if InUsed(used', u) {
        var x :| x in used' && Block(x, used'[x]).Has(u);
        assert x != b.addr ==> Block(x, used[x]).Has(u);
      }
    }
  }

  /** The header writes of malloc on a fitting block p after prevp. */
  ghost function TakeMem(m: Memory, prevp: int, p: int, n: nat): Memory
    requires prevp in m && p in m && n <= m[p].size
  {
    if m[p].size == n then m[prevp := Header(m[p].ptr, m[prevp].size)]
    else m[p := Header(m[p].ptr, m[p].size - n)][p + (m[p].size - n) := Header(0, n)]
  }

  lemma TakeLinks(m: Memory, free: seq<Block>, i: nat, n: nat)
    requires Linked(m, free) && Ordered(free) && 1 <= i < |free| && 1 <= n <= free[i].size
    ensures LinkedAt(m, free, i) && LinkedAt(m, free, i - 1)
    ensures Linked(TakeMem(m, free[i - 1].addr, free[i].addr, n), Take(free, i, n))
  {
    assert LinkedAt(m, free, i) && LinkedAt(m, free, i - 1);
    var m', free' := TakeMem(m, free[i - 1].addr, free[i].addr, n), Take(free, i, n);
    if free[i].size == n {
      forall k: nat | k < |free'| ensures LinkedAt(m', free', k) {
        assert LinkedAt(m, free, if k >= i then k + 1 else k);
        AddrsDiffer(free, i - 1, if k >= i then k + 1 else k);
      }
    } else {
      forall k: nat | k < |free'| ensures LinkedAt(m', free', k) {
        assert LinkedAt(m, free, k);
        AddrsDiffer(free, i, k);
        assert free[k].addr != free[i].End() - n;
      }
    }
  }

  lemma TakeHeaders(m: Memory, free: seq<Block>, used: map<int, nat>, i: nat, n: nat)
    requires 1 <= i < |free| && 1 <= n <= free[i].size && LinkedAt(m, free, i) && LinkedAt(m, free, i - 1)
    requires forall y | y in used :: y in m && m[y].size == used[y] && y != free[i].addr && y != free[i - 1].addr
    requires free[i].End() - n !in used && free[i - 1].addr != free[i].addr
    ensures var m', used' := TakeMem(m, free[i - 1].addr, free[i].addr, n), used[free[i].End() - n := n];
      forall y | y in used' :: y in m' && m'[y].size == used'[y]
  {
  }

  ghost predicate HasFit(free: seq<Block>, n: nat) {
    exists i :: 0 <= i < |free| && free[i].size >= n
  }

  /** Position c steps after f in a cycle of length n. */
  ghost function Around(n: nat, f: nat, c: nat): (k: nat)
    requires f < n && c <= n
    ensures k < n
  {
    if f + c < n then f + c else f + c - n
  }

  /** What free writes to the two headers. */
  ghost function FreeMem(m: Memory, p: int, bp: int): Memory
    requires p in m && bp in m && m[p].ptr in m
  {
    var next := m[p].ptr;
    var m1 := m[bp := if bp + m[bp].size == next then Header(m[next].ptr, m[bp].size + m[next].size)
                      else Header(next, m[bp].size)];
    m1[p := if p + m1[p].size == bp then Header(m1[bp].ptr, m1[p].size + m1[bp].size)
            else Header(bp, m1[p].size)]
  }

  lemma FreeMemIsSurgery(m: Memory, p: int, bp: int)
    requires p in m && bp in m && m[p].ptr in m && p < bp
    ensures var joinsNext := bp + m[bp].size == m[p].ptr && m[p].ptr > bp;
      var m1 := InsertMem(m, p, bp);
      var m2 := if joinsNext then MergeMem(m1, bp) else m1;
      (bp + m[bp].size == m[p].ptr ==> joinsNext) ==>
      FreeMem(m, p, bp) == if p + m[p].size == bp then MergeMem(m2, p) else m2
  {
  }

  lemma FreeLinks(m: Memory, free: seq<Block>, b: Block, t: nat)
    requires t < |free| && Linked(m, free) && b.addr in m && m[b.addr].size == b.size >= 1
    requires Ordered(free) && Ordered(Insert(free, b, t))
    requires LinkedAt(m, free, t) && LinkedAt(m, free, After(|free|, t))
    ensures Linked(FreeMem(m, free[t].addr, b.addr), AfterFree(free, b, t))
  {
    var joined, p, bp := Insert(free, b, t), free[t].addr, b.addr;
    assert joined[t + 1] == b && joined[t] == free[t] && joined[0] == free[0];
    forall i | 0 <= i < |free| ensures free[i].addr != bp {
      assert joined[if i <= t then i else i + 1] == free[i];
    }
    FreeMemIsSurgery(m, p, bp);
    InsertLinks(m, free, b, t);
    var m2 := InsertMem(m, p, bp);
    if t + 1 < |free| {
      assert joined[t + 2] == free[t + 1];
      if Touching(joined, t + 1) {
        MergeLinks(m2, joined, t + 1);
        MergeIsOrdered(joined, t + 1);
        joined, m2 := Merge(joined, t + 1), MergeMem(m2, bp);
        assert joined[t] == free[t] && joined[t + 1].addr == bp;
      }
    }
    if Touching(joined, t) {
      MergeLinks(m2, joined, t);
    }
  }

  lemma MergeIsOrdered(free: seq<Block>, i: nat)
    requires Ordered(free) && i + 1 < |free| && Touching(free, i)
    ensures Ordered(Merge(free, i))
  {
    var free' := Merge(free, i);
    forall k | 0 <= k < |free'| ensures free'[k].addr == free[if k <= i then k else k + 1].addr {
    }
  }

  lemma InsertedInOrder(base: int, free: seq<Block>, used: map<int, nat>, arena: set<int>, bp: int, t: nat)
    requires Tiled(base, free, used, arena) && bp in used && Slot(free, bp, t)
    ensures Ordered(Insert(free, Block(bp, used[bp]), t))
  {
    InsertKeepsTiling(base, free, used, arena, bp, t);
  }

  /** The header writes of free, once the block p below bp is found. */
  method Relink(mem: Memory, p: int, bp: int) returns (m: Memory)
    requires p in mem && bp in mem && mem[p].ptr in mem
    ensures m == FreeMem(mem, p, bp)
  {
    m := mem;
    var next := m[p].ptr;
    if bp + m[bp].size == next {
      m := m[bp := Header(m[next].ptr, m[bp].size + m[next].size)];
    } else {
      m := m[bp := Header(next, m[bp].size)];
    }
    if p + m[p].size == bp {
      m := m[p := Header(m[bp].ptr, m[p].size + m[bp].size)];
    } else {
      m := m[p := Header(bp, m[p].size)];
    }
  }

  /** The whole invariant: the list in memory is address-ordered and fully merged, free and live
      blocks tile the arena, and live headers still hold their sizes. */
  ghost predicate WellFormed(m: Memory, base: int, free: seq<Block>, used: map<int, nat>, arena: set<int>) {
    && Tiled(base, free, used, arena) && Coalesced(free) && Linked(m, free)
    && forall x | x in used :: x in m && m[x].size == used[x]
  }

  lemma FreeStep(m: Memory, base: int, free: seq<Block>, used: map<int, nat>, arena: set<int>, bp: int, t: nat)
    requires WellFormed(m, base, free, used, arena) && bp in used && Slot(free, bp, t)
    ensures LinkedAt(m, free, t) && LinkedAt(m, free, After(|free|, t)) && bp in m
    ensures var free' := AfterFree(free, Block(bp, used[bp]), t);
      && WellFormed(FreeMem(m, free[t].addr, bp), base, free', used - {bp}, arena)
      && Covers(free', Block(bp, used[bp])) && t < |free'| && free'[t].addr == free[t].addr
  {
    var b := Block(bp, used[bp]);
    assert Ordered(free) && b.size >= 1;
    hide Tiled, Covers, Touching;
    AfterFreeKeepsPrevious(free, b, t);
    assert LinkedAt(m, free, t) && LinkedAt(m, free, After(|free|, t));
    assert Ordered(Insert(free, b, t)) by {
      InsertedInOrder(base, free, used, arena, bp, t);
    }
    FreeLinks(m, free, b, t);
    AfterFreeIsTiled(base, free, used, arena, bp, t);
    AfterFreeIsCoalesced(free, b, t);
    AfterFreeCovers(free, b, t);
    forall x | x in used ensures x != free[t].addr {
      UsedApart(base, free, used, arena, x);
    }
  }

  lemma TakeStep(m: Memory, base: int, free: seq<Block>, used: map<int, nat>, arena: set<int>, i: nat, n: nat)
    requires WellFormed(m, base, free, used, arena) && 1 <= i < |free| && 1 <= n <= free[i].size
    ensures LinkedAt(m, free, i) && LinkedAt(m, free, i - 1)
    ensures var x := free[i].End() - n;
      x !in used && WellFormed(TakeMem(m, free[i - 1].addr, free[i].addr, n), base, Take(free, i, n), used[x := n],
          arena)
  {
    TakeKeepsTiling(base, free, used, arena, i, n);
    TakeIsCoalesced(free, i, n);
    TakeLinks(m, free, i, n);
    forall y | y in used ensures y != free[i].addr && y != free[i - 1].addr {
      UsedApart(base, free, used, arena, y);
    }
    TakeHeaders(m, free, used, i, n);
    hide Tiled, Coalesced, LinkedAt, TakeMem, Take;
  }

  lemma GrowStep(m: Memory, base: int, free: seq<Block>, used: map<int, nat>, arena: set<int>, b: Block,
      arena': set<int>)
    requires WellFormed(m, base, free, used, arena) && b.size >= 1 && b.addr > base
    requires forall u | b.Has(u) :: u !in arena
    requires forall u :: u in arena' <==> u in arena || b.Has(u)
    ensures b.addr !in used
    ensures WellFormed(m[b.addr := Header(0, b.size)], base, free, used[b.addr := b.size], arena')
  {
    var m' := m[b.addr := Header(0, b.size)];
    GrowKeepsTiling(base, free, used, arena, b, arena');
    UsedApart(base, free, used[b.addr := b.size], arena', b.addr);
    forall i: nat | i < |free| ensures LinkedAt(m', free, i) {
      assert LinkedAt(m, free, i);
    }
  }

  lemma CoversGivesFit(free: seq<Block>, b: Block, n: nat)
    requires Covers(free, b) && n <= b.size
    ensures HasFit(free, n)
  {
    var i :| 0 <= i < |free| && free[i].addr <= b.addr && b.End() <= free[i].End();
    assert free[i].size >= b.size;
  }

  /** Having gone all the way round, the search has seen every block. */
  lemma FullCircle(free: seq<Block>, f: nat, n: nat)
    requires f < |free| && forall j: nat | 1 <= j <= |free| :: free[Around(|free|, f, j)].size < n
    ensures !HasFit(free, n)
  {
    forall i | 0 <= i < |free| ensures free[i].size < n {
      assert i == Around(|free|, f, if i > f then i - f else i + |free| - f);
    }
  }

  class Heap {
    const base: int
    var mem: Memory
    var freep: int
    /** The free list from base upwards, the live blocks with their sizes, and all memory obtained. */
    ghost var free: seq<Block>
    ghost var used: map<int, nat>
    ghost var arena: set<int>

    ghost predicate Valid()
      reads this
    {
      && base > 0
      && (freep == 0 ==> free == [] && used == map[] && arena == {})
      && (freep != 0 ==>
        && WellFormed(mem, base, free, used, arena)
        && exists i :: 0 <= i < |free| && free[i].addr == freep)
    }

    /** The program starts with a null freep. */
    constructor (baseAddress: int)
      requires baseAddress > 0
      ensures Valid() && base == baseAddress && freep == 0 && used == map[] && arena == {}
    {
      base := baseAddress;
      mem := map[];
      freep := 0;
      free, used, arena := [], map[], {};
    }

    method Free(ap: int)
      requires Valid() && freep != 0 && ap - 1 in used
      modifies this
      ensures Valid() && freep != 0
      ensures used == old(used) - {ap - 1} && arena == old(arena)
      ensures Covers(free, Block(ap - 1, old(used)[ap - 1]))
    {
      var bp := ap - 1;
      ghost var b := Block(bp, used[bp]);
      var p;
      ghost var t;
      hide WellFormed, Covers, AfterFree;
      p, t := FindSlot(bp);
      FreeStep(mem, base, free, used, arena, bp, t);
      var m := Relink(mem, p, bp);
      mem, freep := m, p;
      free, used := AfterFree(free, b, t), used - {bp};
      assert free[t].addr == freep;
    }

    /** The search loop of free: it stops at the block below bp, from wherever freep points. */
    method FindSlot(bp: int) returns (p: int, ghost t: nat)
      requires Valid() && freep != 0 && bp in used
      ensures Slot(free, bp, t) && p == free[t].addr && p >= base
    {
      UsedApart(base, free, used, arena, bp);
      t := SlotExists(free, bp);
      p := freep;
      ghost var k :| 0 <= k < |free| && free[k].addr == p;
      while !(bp > p && bp < mem[p].ptr)
        invariant 0 <= k < |free| && free[k].addr == p && LinkedAt(mem, free, k)
        decreases if k <= t then t - k else t - k + |free|
      {
        if p >= mem[p].ptr && (bp > p || bp < mem[p].ptr) {
          break;
        }
        assert LinkedAt(mem, free, k);
        p := mem[p].ptr;
        k := After(|free|, k);
      }
      assert LinkedAt(mem, free, k);
      SlotUnique(free, bp, k, t);
    }

    /** Ask sbrk for more memory and free it. `brk` is what sbrk returns, None for -1. */
    method Morecore(nunits: nat, brk: Option<int>) returns (r: int)
      requires Valid() && freep != 0 && nunits >= 1
      requires brk.Some? ==> brk.value > base && forall u | Block(brk.value, Growth(nunits)).Has(u) :: u !in arena
      modifies this
      ensures Valid() && freep != 0 && used == old(used)
      ensures brk.None? ==> r == 0 && unchanged(this)
      ensures brk.Some? ==> r == freep && HasFit(free, nunits)
      ensures forall u :: u in arena <==> u in old(arena) || (brk.Some? && Block(brk.value, Growth(nunits)).Has(u))
    {
      if brk.None? {
        return 0;
      }
      hide WellFormed, Covers, HasFit, Interval;
      var nu := if nunits < MIN_GROW then MIN_GROW else nunits;
      var hp := brk.value;
      ghost var b := Block(hp, nu);
      ghost var grown := arena + Interval(hp, nu);
      GrowStep(mem, base, free, used, arena, b, grown);
      assert used[hp := nu] - {hp} == used;
      mem := mem[hp := Header(0, nu)];
      used, arena := used[hp := nu], grown;
      Free(hp + 1);
      CoversGivesFit(free, b, nunits);
      r := freep;
    }

    /** Take n units from the fitting block p, whose list predecessor is prevp: the whole block, or
        its tail. */
    method Carve(prevp: int, p: int, n: nat, ghost i: nat) returns (ap: int)
      requires Valid() && freep != 0 && 1 <= i < |free| && 1 <= n <= free[i].size
      requires p == free[i].addr && prevp == free[i - 1].addr
      modifies this
      ensures Valid() && freep == prevp && freep != 0 && ap > 0
      ensures ap - 1 !in old(used) && used == old(used)[ap - 1 := n] && arena == old(arena)
    {
      TakeStep(mem, base, free, used, arena, i, n);
      TakeKeepsPrevious(base, free, used, arena, i, n);
      hide WellFormed, Take;
      var m, x := mem, p;
      if m[p].size == n {
        m := m[prevp := Header(m[p].ptr, m[prevp].size)];
      } else {
        m := m[p := Header(m[p].ptr, m[p].size - n)];
        x := p + m[p].size;
        m := m[x := Header(0, n)];
      }
      assert m == TakeMem(mem, prevp, p, n);
      mem, freep := m, prevp;
      free, used := Take(free, i, n), used[x := n];
      assert free[i - 1].addr == prevp;
      ap := x + 1;
    }

    /** malloc: next-fit from freep, growing the heap when a whole circle finds no fit. `brk` is
        what sbrk returns if it is asked; what malloc takes to be new memory lies above base and outside the
        arena. That there is as much of it is another matter, see SbrkArgumentFaithful and HugeMalloc. */
    method Malloc(nbytes: nat, brk: Option<int>) returns (ap: int)
      requires Valid() && nbytes < 0x1_0000_0000
      requires brk.Some? ==>
        brk.value > base && forall u | Block(brk.value, Growth(Units(nbytes))).Has(u) :: u !in arena
      modifies this
      ensures Valid() && freep != 0
      ensures ap == 0 <==> !HasFit(old(free), Units(nbytes)) && brk.None?
      ensures ap == 0 ==> used == old(used)
      ensures ap != 0 ==> ap - 1 !in old(used) && used == old(used)[ap - 1 := Units(nbytes)]
      ensures HasFit(old(free), Units(nbytes)) || brk.None? ==> arena == old(arena)
      ensures !HasFit(old(free), Units(nbytes)) && brk.Some? ==>
        forall u :: u in arena <==> u in old(arena) || Block(brk.value, Growth(Units(nbytes))).Has(u)
    {
      var n := Units(nbytes);
      if freep == 0 {
        InitList();
      }
      hide WellFormed, HasFit;
      var prevp, p;
      ghost var i;
      prevp, p, i := Search(n);
      if p == 0 {
        p := Morecore(n, brk);
        if p == 0 {
          return 0;
        }
        prevp, p, i := Search(n);
      }
      ap := Carve(prevp, p, n, i);
    }

    /** One trip of malloc's loop around the ring, from the block after freep to freep itself. It
        stops at the first block that fits; p is 0 when none does. */
    method Search(n: nat) returns (prevp: int, p: int, ghost i: nat)
      requires Valid() && freep != 0 && n >= 1
      ensures p != 0 <==> HasFit(free, n)
      ensures p != 0 ==> 1 <= i < |free| && n <= free[i].size && p == free[i].addr && prevp == free[i - 1].addr
    {
      hide WellFormed;
      ghost var f: nat :| f < |free| && free[f].addr == freep;
      ghost var c: nat := 0;
      Walk(mem, base, free, used, arena, f, 0);
      prevp, p := freep, mem[freep].ptr;
      while true
        invariant c < |free|
        invariant prevp == free[Around(|free|, f, c)].addr && p == free[Around(|free|, f, c + 1)].addr
        invariant forall j: nat | 1 <= j <= c :: free[Around(|free|, f, j)].size < n
        decreases |free| - c
      {
        Walk(mem, base, free, used, arena, f, c + 1);
        i := Around(|free|, f, c + 1);
        if mem[p].size >= n {
          FitHere(mem, base, free, used, arena, f, c, n);
          return;
        }
        if p == freep {
          SamePosition(mem, base, free, used, arena, f, i);
          FullCircle(free, f, n);
          p := 0;
          return;
        }
        c := c + 1;
        prevp, p := p, mem[p].ptr;
      }
    }

    /** First call: the list is base alone, linked to itself. */
    method InitList()
      requires Valid() && freep == 0
      modifies this
      ensures Valid() && freep != 0 && used == old(used) && arena == old(arena)
      ensures forall n: nat | n >= 1 :: !HasFit(old(free), n) && !HasFit(free, n)
    {
      mem := mem[base := Header(base, 0)];
      freep := base;
      free := [Block(base, 0)];
      assert LinkedAt(mem, free, 0);
    }
  }

  /** Following ptr from a position around the ring reaches the next one. */
  lemma Walk(m: Memory, base: int, free: seq<Block>, used: map<int, nat>, arena: set<int>, f: nat, c: nat)
    requires WellFormed(m, base, free, used, arena) && f < |free| && c <= |free|
    ensures var i := Around(|free|, f, c);
      && free[i].addr in m && m[free[i].addr].size == free[i].size && free[i].addr >= base
      && m[free[i].addr].ptr == free[After(|free|, i)].addr
      && (c < |free| ==> After(|free|, i) == Around(|free|, f, c + 1))
      && (c == |free| ==> i == f && After(|free|, i) == Around(|free|, f, 1))
  {
    assert LinkedAt(m, free, Around(|free|, f, c));
  }

  /** A fitting block is not base, so its predecessor on the ring is the position before it. */
  lemma FitHere(m: Memory, base: int, free: seq<Block>, used: map<int, nat>, arena: set<int>, f: nat, c: nat, n: nat)
    requires WellFormed(m, base, free, used, arena) && f < |free| && c < |free| && n >= 1
    requires free[Around(|free|, f, c + 1)].size >= n
    ensures Around(|free|, f, c + 1) >= 1 && Around(|free|, f, c) == Around(|free|, f, c + 1) - 1
    ensures HasFit(free, n)
  {
  }

  lemma SamePosition(m: Memory, base: int, free: seq<Block>, used: map<int, nat>, arena: set<int>, f: nat, i: nat)
    requires WellFormed(m, base, free, used, arena) && f < |free| && i < |free| && free[f].addr == free[i].addr
    ensures f == i
  {
  }

  lemma TakeKeepsPrevious(base: int, free: seq<Block>, used: map<int, nat>, arena: set<int>, i: nat, n: nat)
    requires Tiled(base, free, used, arena) && 1 <= i < |free| && 1 <= n <= free[i].size
    ensures i - 1 < |Take(free, i, n)| && Take(free, i, n)[i - 1] == free[i - 1]
    ensures free[i].addr > base && free[i - 1].addr >= base
  {
  }

  ghost function Interval(lo: int, n: nat): (s: set<int>)
    ensures forall u :: u in s <==> lo <= u < lo + n
  {
    if n == 0 then {} else Interval(lo, n - 1) + {lo + n - 1}
  }

  /** The size of a process after an sbrk that succeeds: below 0 it is left alone. */
  function SbrkSize(size: nat, n: int): nat {
    if size + n < 0 then size else size + n
  }

  /** A first malloc of more than 2^31 - 32 bytes, when sbrk succeeds: the block starts at the old end of the
      process, and after what sbrk did none of its payload is memory of the process. */
  method HugeMalloc(base: int, size: nat, nbytes: nat) returns (heap: Heap, ap: int)
    requires 0 < base < size / HEADER_BYTES && size % HEADER_BYTES == 0 && 0x7fff_ffe0 < nbytes < 0x1_0000_0000
    ensures fresh(heap) && (ap - 1) * HEADER_BYTES == size && heap.used == map[ap - 1 := Units(nbytes)]
    ensures SbrkSize(size, SbrkArgument(Units(nbytes))) <= ap * HEADER_BYTES
  {
    SbrkArgumentFaithful(nbytes);
    heap := new Heap(base);
    ap := heap.Malloc(nbytes, Some(size / HEADER_BYTES));
    WholeArena(heap.base, heap.free, heap.used, heap.arena, ap - 1, Units(nbytes), size / HEADER_BYTES);
  }

  /** A live block as large as the arena is the arena. */
  lemma WholeArena(base: int, free: seq<Block>, used: map<int, nat>, arena: set<int>, x: int, n: nat, from: int)
    requires Tiled(base, free, used, arena) && x in used && used[x] == n >= 1
    requires forall u :: u in arena <==> Block(from, n).Has(u)
    ensures x == from
  {
    assert Block(x, used[x]).Has(x) && InUsed(used, x);
    assert Block(x, used[x]).Has(x + n - 1) && InUsed(used, x + n - 1);
  }
}
