/**
 The firmware heap of firmware/lib/sbi/sbi_heap.c: a list of free regions, a list of used regions,
 and a list of spare list nodes, all fixed at initialisation.

 Addresses and sizes are unsigned long, 64 bits; the one place where that shows is the rounding of a
 requested size. The lists are sequences, first entry first.
 */
module SbiHeap {
  import opened Common

  const HEAP_BASE_ALIGN: nat := 1024
  const HEAP_ALLOC_ALIGN: nat := 64
  const HEAP_HOUSEKEEPING_FACTOR: nat := 16
  /** sizeof(struct heap_node) */
  const NODE_SIZE: nat := 32

  datatype Node = Node(addr: nat, size: nat) {
    predicate Has(x: int) {
      addr <= x < addr + size
    }
  }

  /** How many of the nodes contain address x. */
  function Count(nodes: seq<Node>, x: int): nat {
    if nodes == [] then 0 else (if nodes[0].Has(x) then 1 else 0) + Count(nodes[1..], x)
  }

  function One(n: Node, x: int): nat {
    if n.Has(x) then 1 else 0
  }

  lemma {:induction false} CountConcat(a: seq<Node>, b: seq<Node>, x: int)
    ensures Count(a + b, x) == Count(a, x) + Count(b, x)
  {
    if a == [] {
      assert a + b == b;
    } else {
      CountConcat(a[1..], b, x);
      assert (a + b)[1..] == a[1..] + b;
    }
  }

  /** Taking out, replacing and inserting a node. */
  lemma CountSplit(s: seq<Node>, k: nat, n: Node, x: int)
    requires k < |s|
    ensures Count(s[k := n], x) == Count(s, x) - One(s[k], x) + One(n, x)
    ensures Count(Remove(s, k), x) == Count(s, x) - One(s[k], x)
    ensures Count(s + [n], x) == Count(s, x) + One(n, x)
    ensures Count(Insert(s, k + 1, n), x) == Count(s, x) + One(n, x)
  {
    assert s == s[..k] + ([s[k]] + s[k + 1..]) && s[k := n] == s[..k] + ([n] + s[k + 1..]);
    CountConcat(s[..k], [s[k]] + s[k + 1..], x);
    CountConcat(s[..k], [n] + s[k + 1..], x);
    CountConcat(s[..k], s[k + 1..], x);
    CountConcat(s, [n], x);
    assert s == s[..k + 1] + s[k + 1..];
    CountConcat(s[..k + 1], s[k + 1..], x);
    CountConcat(s[..k + 1], [n] + s[k + 1..], x);
  }

  function Remove(s: seq<Node>, k: nat): seq<Node>
    requires k < |s|
  {
    s[..k] + s[k + 1..]
  }

  function Insert(s: seq<Node>, k: nat, n: Node): seq<Node>
    requires k <= |s|
  {
    s[..k] + ([n] + s[k..])
  }

  /** Every address of the managed region, and no other, is in exactly one node, free or used. */
  ghost predicate Tiled(base: nat, size: nat, free: seq<Node>, used: seq<Node>) {
    forall x: int :: Count(free, x) + Count(used, x) == One(Node(base, size), x)
  }

  /** What Tiled means: nodes do not overlap. */
  lemma TiledApart(base: nat, size: nat, free: seq<Node>, used: seq<Node>, i: nat, j: nat, x: int)
    requires Tiled(base, size, free, used) && i < j < |free + used|
    ensures !((free + used)[i].Has(x) && (free + used)[j].Has(x))
  {
    var s := free + used;
    CountConcat(free, used, x);
    CountSplit(s, i, s[i], x);
    var t := Remove(s, i);
    assert t[j - 1] == s[j];
    CountSplit(t, j - 1, s[j], x);
  }

  /** Unsigned 64-bit addition of two 64-bit numbers. */
  function Add64(a: nat, b: nat): nat {
    if a + b < TWO64 then a + b else a + b - TWO64
  }

  /** The size that alloc_with_align works with: rounded up in 64-bit arithmetic. */
  function Rounded(size: nat, align: nat): nat
    requires align > 0
  {
    RoundDown(Add64(size, align - 1), align)
  }

  lemma Add64Is(a: nat, b: nat)
    requires a < TWO64 && b < TWO64
    ensures Add64(a, b) == if a < TWO64 - b then a + b else a - (TWO64 - b)
  {
  }

  /** The rounded size covers the request exactly when the addition does not wrap, and then by less than the alignment;
      otherwise it is 0. */
  lemma RoundedCovers(size: nat, align: nat)
    requires 0 < size < TWO64 && 0 < align < TWO64
    ensures Rounded(size, align) % align == 0
    ensures Rounded(size, align) >= size <==> size <= TWO64 - align
    ensures if size <= TWO64 - align then Rounded(size, align) < size + align else Rounded(size, align) == 0
  {
    hide RoundDown, Add64;
    var sum := Add64(size, align - 1);
    Add64Is(size, align - 1);
    RoundDownIs(sum, align);
    if size > TWO64 - align {
      SmallIsZero(sum, align);
    }
  }

  lemma SmallIsZero(x: nat, align: nat)
    requires x < align
    ensures RoundDown(x, align) == 0
  {
    DivUnique(x, align, 0, x);
  }

  /** ROUNDUP */
  function AlignUp(addr: nat, align: nat): nat
    requires align > 0
  {
    if addr == 0 then 0 else ((addr - 1) / align + 1) * align
  }

  lemma AlignUpIs(addr: nat, align: nat)
    requires align > 0
    ensures AlignUp(addr, align) % align == 0 && addr <= AlignUp(addr, align) < addr + align
  {
    if addr > 0 {
      DivUnique(AlignUp(addr, align), align, (addr - 1) / align + 1, 0);
      RoundDownIs(addr - 1, align);
    } else {
      DivUnique(0, align, 0, 0);
    }
  }

  /** A free region of which the first `pad` bytes are skipped for alignment can hold n bytes. */
  predicate Fits(node: Node, n: nat, align: nat)
    requires align > 0
  {
    n + (AlignUp(node.addr, align) - node.addr) <= node.size
  }

  /** That is, there is an aligned address in the region with n bytes from it on. */
  lemma FitsIs(node: Node, n: nat, align: nat)
    requires align > 0
    ensures Fits(node, n, align) <==>
      exists a: nat :: a % align == 0 && node.addr <= a && a + n <= node.addr + node.size
  {
    hide AlignUp;
    AlignUpIs(node.addr, align);
    if a: nat :| a % align == 0 && node.addr <= a && a + n <= node.addr + node.size {
      AlignedApart(AlignUp(node.addr, align), a, align);
    }
  }

  /** Two multiples are a whole step apart. */
  lemma AlignedApart(a: nat, b: nat, align: nat)
    requires align > 0 && a % align == 0 && b % align == 0
    ensures b < a ==> b + align <= a
  {
    var p, q := a / align, b / align;
    assert a == p * align && b == q * align;
    if p <= q {
      MulMono(p, q, align);
    } else {
      MulMono(q + 1, p, align);
      assert (q + 1) * align == b + align;
    }
  }

  /** How many spare nodes it takes to carve n bytes out of a region that fits. */
  function NodesNeeded(node: Node, n: nat, align: nat): nat
    requires align > 0
  {
    var pad := AlignUp(node.addr, align) - node.addr;
    (if pad > 0 then 1 else 0) + (if n + pad < node.size then 1 else 0)
  }

  /** No two bits set. */
  predicate PowerOfTwo(a: nat) {
    a == 1 || (a > 0 && a % 2 == 0 && PowerOfTwo(a / 2))
  }

  lemma {:induction false} PowersAre(k: nat)
    ensures PowerOfTwo(Pow2(k))
  {
    if k > 0 {
      PowersAre(k - 1);
      assert Pow2(k) == 2 * Pow2(k - 1);
    }
  }

  lemma {:induction false} Exponent(a: nat) returns (k: nat)
    requires PowerOfTwo(a)
    ensures a == Pow2(k)
  {
    k := 0;
    if a != 1 {
      var h := Exponent(a / 2);
      k := h + 1;
    }
  }

  lemma PowerOfTwoIs(a: nat)
    ensures PowerOfTwo(a) <==> exists k: nat :: a == Pow2(k)
  {
    hide PowerOfTwo, Pow2;
    if PowerOfTwo(a) {
      var k := Exponent(a);
    }
    if k: nat :| a == Pow2(k) {
      PowersAre(k);
    }
  }

  /** The first free region that fits has the list nodes it needs. */
  ghost predicate CanAlloc(free: seq<Node>, spare: nat, bytes: nat, align: nat)
    requires align > 0
  {
    bytes > 0 && exists k ::
      0 <= k < |free| && FirstFit(free, Rounded(bytes, align), align, k) &&
      NodesNeeded(free[k], Rounded(bytes, align), align) <= spare
  }

  /** Region k was cut at its lowest aligned address: the padding stays in place, the remainder takes its
      place or goes to the end of the list. */
  ghost predicate CarvedFrom(free: seq<Node>, spare: nat, k: nat, n: nat, align: nat, addr: nat, free': seq<Node>,
      spare': nat)
    requires align > 0 && k < |free| && Fits(free[k], n, align)
  {
    var np := free[k];
    var pad := AlignUp(np.addr, align) - np.addr;
    var rest := Node(np.addr + (n + pad), np.size - (n + pad));
    && addr == AlignUp(np.addr, align) && spare' == spare - NodesNeeded(np, n, align)
    && free' == if pad > 0 then free[k := Node(np.addr, pad)] + (if n + pad < np.size then [rest] else [])
                else if n < np.size then free[k := rest] else Remove(free, k)
  }

  // Giving a region back.

  predicate Touch(a: Node, b: Node) {
    a.addr + a.size == b.addr || b.addr + b.size == a.addr
  }

  /** The scan of the free list stops at n: it touches the region, or lies below it. */
  predicate Stops(n: Node, np: Node) {
    Touch(np, n) || n.addr + n.size < np.addr
  }

  ghost predicate IsStop(free: seq<Node>, np: Node, j: nat) {
    j <= |free| && (forall i | 0 <= i < j :: !Stops(free[i], np)) && (j < |free| ==> Stops(free[j], np))
  }

  /** The free list with the region merged into entry j, or put after it, or at the end. */
  function ReturnedAt(free: seq<Node>, np: Node, j: nat): seq<Node>
    requires j <= |free|
  {
    if j == |free| then free + [np]
    else if np.addr + np.size == free[j].addr then free[j := Node(np.addr, free[j].size + np.size)]
    else if np.addr == free[j].addr + free[j].size then free[j := Node(free[j].addr, free[j].size + np.size)]
    else Insert(free, j + 1, np)
  }

  /** No two free regions are neighbours. */
  ghost predicate Coalesced(free: seq<Node>) {
    forall i, j | 0 <= i < j < |free| :: !Touch(free[i], free[j])
  }

  ghost predicate Apart(a: Node, b: Node) {
    a.size > 0 && b.size > 0 && (a.addr + a.size <= b.addr || b.addr + b.size <= a.addr)
  }

  /** When freeing leaves no two neighbouring free regions: exactly when the region touches none but
      the one where the scan stops. */
  lemma FreeCoalesces(free: seq<Node>, np: Node, j: nat)
    requires IsStop(free, np, j) && Coalesced(free) && (forall i | 0 <= i < |free| :: Apart(free[i], np))
    requires forall i, k | 0 <= i < k < |free| :: Apart(free[i], free[k])
    ensures Coalesced(ReturnedAt(free, np, j)) <==> forall i | 0 <= i < |free| && i != j :: !Touch(free[i], np)
  {
    if j < |free| && Touch(np, free[j]) {
      MergeCoalesces(free, np, j);
    } else {
      InsertCoalesces(free, np, j);
    }
  }

  lemma MergeCoalesces(free: seq<Node>, np: Node, j: nat)
    requires j < |free| && Touch(np, free[j]) && Coalesced(free) && (forall i | 0 <= i < |free| :: Apart(free[i], np))
    requires forall i, k | 0 <= i < k < |free| :: Apart(free[i], free[k])
    ensures Coalesced(ReturnedAt(free, np, j)) <==> forall i | 0 <= i < |free| && i != j :: !Touch(free[i], np)
  {
    var m, free' := ReturnedAt(free, np, j)[j], ReturnedAt(free, np, j);
    forall i | 0 <= i < |free| && i != j ensures Touch(free[i], m) <==> Touch(free[i], np) {
      assert Apart(free[i], np) && Apart(if i < j then free[i] else free[j], if i < j then free[j] else free[i]);
      assert !Touch(if i < j then free[i] else free[j], if i < j then free[j] else free[i]);
    }
    if forall i | 0 <= i < |free| && i != j :: !Touch(free[i], np) {
      forall i, k | 0 <= i < k < |free'| ensures !Touch(free'[i], free'[k]) {
        assert i != j && k != j ==> !Touch(free[i], free[k]);
      }
    } else {
      var i :| 0 <= i < |free| && i != j && Touch(free[i], np);
      assert Touch(free'[if i < j then i else j], free'[if i < j then j else i]);
    }
  }

  lemma InsertCoalesces(free: seq<Node>, np: Node, j: nat)
    requires j <= |free| && (j < |free| ==> !Touch(np, free[j])) && Coalesced(free)
    ensures Coalesced(ReturnedAt(free, np, j)) <==> forall i | 0 <= i < |free| && i != j :: !Touch(free[i], np)
  {
    hide Coalesced;
    var at := if j == |free| then j else j + 1;
    assert ReturnedAt(free, np, j) == Insert(free, at, np);
    if forall i | 0 <= i < |free| && i != j :: !Touch(free[i], np) {
      InsertKeeps(free, np, at);
    } else {
      var i :| 0 <= i < |free| && i != j && Touch(free[i], np);
      InsertBreaks(free, np, at, i);
    }
  }

  lemma InsertKeeps(free: seq<Node>, np: Node, at: nat)
    requires at <= |free| && Coalesced(free) && forall i | 0 <= i < |free| :: !Touch(free[i], np)
    ensures Coalesced(Insert(free, at, np))
  {
    var s := Insert(free, at, np);
    forall i, k | 0 <= i < k < |s| ensures !Touch(s[i], s[k]) {
      if i != at && k != at {
        assert s[i] == free[if i < at then i else i - 1] && s[k] == free[if k < at then k else k - 1];
      } else {
        assert s[at] == np && !Touch(free[if i == at then k - 1 else i], np);
      }
    }
  }

  lemma InsertBreaks(free: seq<Node>, np: Node, at: nat, i: nat)
    requires at <= |free| && i < |free| && Touch(free[i], np)
    ensures !Coalesced(Insert(free, at, np))
  {
    var s := Insert(free, at, np);
    assert s[at] == np && s[if i < at then i else i + 1] == free[i];
    assert Touch(s[if i < at then i else at], s[if i < at then at else i + 1]);
  }

  class Heap {
    /** The managed region: what housekeeping leaves. */
    const base: nat
    const size: nat
    var spare: seq<Node>
    var free: seq<Node>
    var used: seq<Node>

    ghost predicate Valid()
      reads this
    {
      Tiled(base, size, free, used)
    }

    ghost function Nodes(): nat
      reads this
    {
      |spare| + |free| + |used|
    }

    /** sbi_heap_init_new: the first part of the memory holds the list nodes, the rest is one free
        region. The housekeeping part must hold at least one node. */
    constructor (start: nat, total: nat)
      requires RoundDown(total / HEAP_HOUSEKEEPING_FACTOR, HEAP_BASE_ALIGN) >= NODE_SIZE
      ensures var hk := RoundDown(total / HEAP_HOUSEKEEPING_FACTOR, HEAP_BASE_ALIGN);
        base == start + hk && base + size == start + total && Nodes() == hk / NODE_SIZE
      ensures Valid() && used == [] && free == [Node(base, size)]
    {
      var hk := RoundDown(total / HEAP_HOUSEKEEPING_FACTOR, HEAP_BASE_ALIGN);
      var nodes: seq<Node> := [];
      while |nodes| < hk / NODE_SIZE
        invariant |nodes| <= hk / NODE_SIZE
      {
        nodes := nodes + [Node(0, 0)];
      }
      base, size := start + hk, total - hk;
      spare, free, used := nodes[1..], [Node(start + hk, total - hk)], [];
    }

    /** alloc_with_align */
    method AllocWithAlign(align: nat, bytes: nat) returns (ret: Option<nat>)
      requires Valid() && PowerOfTwo(align)
      modifies this
      ensures Valid() && Nodes() == old(Nodes())
      ensures ret.None? ==> unchanged(this)
      ensures ret.Some? ==> ret.value % align == 0 && used == old(used) + [Node(ret.value, Rounded(bytes, align))]
      ensures ret.Some? <==> CanAlloc(old(free), |old(spare)|, bytes, align)
      ensures ret.Some? ==> forall k | FirstFit(old(free), Rounded(bytes, align), align, k) ::
        CarvedFrom(old(free), |old(spare)|, k, Rounded(bytes, align), align, ret.value, free, |spare|)
    {
      hide Tiled, AlignUp, Rounded, CarvedFrom;
      ret := None;
      if bytes > 0 {
        var n := Rounded(bytes, align);
        var k := 0;
        while k < |free| && !Fits(free[k], n, align)
          invariant 0 <= k <= |free| && forall j | 0 <= j < k :: !Fits(free[j], n, align)
        {
          k := k + 1;
        }
        if k < |free| {
          assert FirstFit(free, n, align, k);
          ret := Carve(k, n, align);
        }
      }
    }

    /** The part of alloc_with_align after a free region is found. */
    method Carve(k: nat, n: nat, align: nat) returns (ret: Option<nat>)
      requires Valid() && align > 0 && k < |free| && Fits(free[k], n, align)
      modifies this
      ensures Valid() && Nodes() == old(Nodes())
      ensures ret.None? ==> unchanged(this)
      ensures ret.Some? ==> ret.value % align == 0 && used == old(used) + [Node(ret.value, n)]
      ensures ret.Some? <==> NodesNeeded(old(free)[k], n, align) <= |old(spare)|
      ensures ret.Some? ==> CarvedFrom(old(free), |old(spare)|, k, n, align, ret.value, free, |spare|)
    {
      hide Tiled, AlignUp;
      AlignUpIs(free[k].addr, align);
      var np := free[k];
      var lowest := AlignUp(np.addr, align);
      var pad := lowest - np.addr;
      ret := None;
      if pad > 0 {
        if spare != [] {
          var node := spare[0];
          spare := spare[1..];
          if n + pad < np.size && spare != [] {
            spare := spare[1..];
            CarveTiled(base, size, free, used, k, pad, n);
            free := free[k := Node(np.addr, pad)] + [Node(np.addr + (n + pad), np.size - (n + pad))];
            used := used + [Node(lowest, n)];
            ret := Some(lowest);
          } else if n + pad != np.size {
            spare := [node] + spare;
            assert spare == old(spare);
          } else {
            CarveTiled(base, size, free, used, k, pad, n);
            free := free[k := Node(np.addr, pad)];
            used := used + [Node(lowest, n)];
            ret := Some(lowest);
          }
        }
      } else if n < np.size && spare != [] {
        spare := spare[1..];
        CarveTiled(base, size, free, used, k, pad, n);
        free := free[k := Node(np.addr + n, np.size - n)];
        used := used + [Node(np.addr, n)];
        ret := Some(np.addr);
      } else if n == np.size {
        CarveTiled(base, size, free, used, k, pad, n);
        free := Remove(free, k);
        used := used + [np];
        ret := Some(np.addr);
      }
    }

    /** sbi_aligned_alloc_from */
    method AlignedAlloc(alignment: nat, bytes: nat) returns (ret: Option<nat>)
      requires Valid()
      modifies this
      ensures Valid() && Nodes() == old(Nodes()) && (ret.None? ==> unchanged(this))
      ensures var a := if alignment < HEAP_ALLOC_ALIGN then HEAP_ALLOC_ALIGN else alignment;
        && (ret.Some? <==> PowerOfTwo(a) && bytes % a == 0 && CanAlloc(old(free), |old(spare)|, bytes, a))
        && (ret.Some? ==> ret.value % a == 0 && used == old(used) + [Node(ret.value, Rounded(bytes, a))])
    {
      hide Tiled, Rounded;
      var a := if alignment < HEAP_ALLOC_ALIGN then HEAP_ALLOC_ALIGN else alignment;
      ret := None;
      if PowerOfTwo(a) && bytes % a == 0 {
        ret := AllocWithAlign(a, bytes);
      }
    }

    /** sbi_free_from: the used region that contains the pointer, if there is one, becomes free. */
    method FreeFrom(ptr: nat) returns (ghost k: nat, ghost stop: nat)
      requires Valid()
      modifies this
      ensures Valid() && Nodes() == old(Nodes()) && k <= |old(used)| && forall j | 0 <= j < k :: !old(used)[j].Has(ptr)
      ensures if k < |old(used)| && ptr != 0 then old(used)[k].Has(ptr) && used == Remove(old(used), k)
        else unchanged(this)
      ensures k < |old(used)| && ptr != 0 ==>
        IsStop(old(free), old(used)[k], stop) && free == ReturnedAt(old(free), old(used)[k], stop)
    {
      hide Tiled;
      var i := 0;
      while i < |used| && !used[i].Has(ptr)
        invariant 0 <= i <= |used| && forall j | 0 <= j < i :: !used[j].Has(ptr)
      {
        i := i + 1;
      }
      k, stop := i, 0;
      if i < |used| && ptr != 0 {
        var np := used[i];
        var j := 0;
        while j < |free| && np.addr + np.size != free[j].addr && np.addr != free[j].addr + free[j].size &&
          !(free[j].addr + free[j].size < np.addr)
          invariant 0 <= j <= |free| && forall a | 0 <= a < j :: !Stops(free[a], np)
        {
          j := j + 1;
        }
        stop := j;
        ReturnTiled(base, size, free, used, i, j);
        used := Remove(used, i);
        if j == |free| {
          free := free + [np];
        } else if np.addr + np.size == free[j].addr {
          free, spare := free[j := Node(np.addr, free[j].size + np.size)], spare + [np];
        } else if np.addr == free[j].addr + free[j].size {
          free, spare := free[j := Node(free[j].addr, free[j].size + np.size)], spare + [np];
        } else {
          free := Insert(free, j + 1, np);
        }
      }
    }
  }

  /** The first region on the list that fits. */
  ghost predicate FirstFit(free: seq<Node>, n: nat, align: nat, k: int)
    requires align > 0
  {
    0 <= k < |free| && Fits(free[k], n, align) && forall j | 0 <= j < k :: !Fits(free[j], n, align)
  }

  /** Cutting a region into padding, the allocation and a remainder keeps the tiling. */
  lemma CarveTiled(base: nat, size: nat, free: seq<Node>, used: seq<Node>, k: nat, pad: nat, n: nat)
    requires Tiled(base, size, free, used) && k < |free| && n + pad <= free[k].size
    ensures var np := free[k];
      var taken, rest := Node(np.addr + pad, n), Node(np.addr + (n + pad), np.size - (n + pad));
      && Tiled(base, size, free[k := Node(np.addr, pad)] + [rest], used + [taken])
      && (n + pad == np.size ==> Tiled(base, size, free[k := Node(np.addr, pad)], used + [taken]))
      && (pad == 0 ==> Tiled(base, size, free[k := rest], used + [taken]))
      && (pad == 0 && n == np.size ==> Tiled(base, size, Remove(free, k), used + [np]))
  {
    var np := free[k];
    var taken, rest := Node(np.addr + pad, n), Node(np.addr + (n + pad), np.size - (n + pad));
    var cut := free[k := Node(np.addr, pad)];
    forall x: int
      ensures Count(cut + [rest], x) + Count(used + [taken], x) == Count(free, x) + Count(used, x)
      ensures n + pad == np.size ==> Count(cut, x) + Count(used + [taken], x) == Count(free, x) + Count(used, x)
      ensures pad == 0 ==> Count(free[k := rest], x) + Count(used + [taken], x) == Count(free, x) + Count(used, x)
      ensures pad == 0 && n == np.size ==>
        Count(Remove(free, k), x) + Count(used + [np], x) == Count(free, x) + Count(used, x)
    {
      hide Count;
      CountSplit(free, k, Node(np.addr, pad), x);
      CountSplit(free, k, rest, x);
      CountAdd(cut, rest, x);
      CountAdd(used, taken, x);
      CountAdd(used, np, x);
    }
    hide Count;
  }

  lemma CountAdd(s: seq<Node>, n: Node, x: int)
    ensures Count(s + [n], x) == Count(s, x) + One(n, x)
  {
    CountConcat(s, [n], x);
  }

  /** Giving a used region back, on its own or merged with a neighbour, keeps the tiling. */
  lemma ReturnTiled(base: nat, size: nat, free: seq<Node>, used: seq<Node>, i: nat, j: nat)
    requires Tiled(base, size, free, used) && i < |used| && j <= |free|
    ensures var np, used' := used[i], Remove(used, i);
      && (j == |free| ==> Tiled(base, size, free + [np], used'))
      && (j < |free| && np.addr + np.size == free[j].addr ==>
        Tiled(base, size, free[j := Node(np.addr, free[j].size + np.size)], used'))
      && (j < |free| && np.addr == free[j].addr + free[j].size ==>
        Tiled(base, size, free[j := Node(free[j].addr, free[j].size + np.size)], used'))
      && (j < |free| ==> Tiled(base, size, Insert(free, j + 1, np), used'))
  {
    hide Count;
    var np, used' := used[i], Remove(used, i);
    forall x: int
      ensures Count(free + [np], x) + Count(used', x) == Count(free, x) + Count(used, x)
      ensures j < |free| && np.addr + np.size == free[j].addr ==>
        Count(free[j := Node(np.addr, free[j].size + np.size)], x) + Count(used', x) == Count(free, x) + Count(used, x)
      ensures j < |free| && np.addr == free[j].addr + free[j].size ==>
        Count(free[j := Node(free[j].addr, free[j].size + np.size)], x) + Count(used', x) == Count(free,
        x) + Count(used, x)
      ensures j < |free| ==> Count(Insert(free, j + 1, np), x) + Count(used', x) == Count(free, x) + Count(used, x)
    {
      CountSplit(used, i, np, x);
      CountAdd(free, np, x);
      if j < |free| {
        CountSplit(free, j, np, x);
        CountSplit(free, j, Node(np.addr, free[j].size + np.size), x);
        CountSplit(free, j, Node(free[j].addr, free[j].size + np.size), x);
      }
    }
  }

  // What the two deviations look like on a heap as the firmware makes it.

  const START: nat := 0x8000_0000
  const TOTAL: nat := 0x1_0000
  const FIRST: nat := START + 0x1000

  lemma Sixteenth()
    ensures RoundDown(TOTAL / HEAP_HOUSEKEEPING_FACTOR, HEAP_BASE_ALIGN) == 0x1000 && PowerOfTwo(HEAP_ALLOC_ALIGN)
  {
    assert PowerOfTwo(2) && PowerOfTwo(4) && PowerOfTwo(8) && PowerOfTwo(16) && PowerOfTwo(32);
  }

  lemma AlignedAt(a: nat)
    requires 0 < a && a % HEAP_ALLOC_ALIGN == 0
    ensures AlignUp(a, HEAP_ALLOC_ALIGN) == a
  {
  }

  /** An allocation at the start of the one free region. */
  lemma Front(a: nat, size: nat, spare: nat, bytes: nat)
    requires 0 < a && a % HEAP_ALLOC_ALIGN == 0 && 0 < bytes && Rounded(bytes, HEAP_ALLOC_ALIGN) < size && spare > 0
    ensures FirstFit([Node(a, size)], Rounded(bytes, HEAP_ALLOC_ALIGN), HEAP_ALLOC_ALIGN, 0)
    ensures CanAlloc([Node(a, size)], spare, bytes, HEAP_ALLOC_ALIGN)
    ensures forall addr, free, spare' | CarvedFrom([Node(a, size)], spare, 0, Rounded(bytes, HEAP_ALLOC_ALIGN),
        HEAP_ALLOC_ALIGN, addr, free, spare') ::
      var n := Rounded(bytes, HEAP_ALLOC_ALIGN); addr == a && free == [Node(a + n, size - n)] && spare' == spare - 1
  {
    hide Rounded;
    AlignedAt(a);
    hide AlignUp;
  }

  lemma RoundedValues()
    ensures Rounded(64, HEAP_ALLOC_ALIGN) == 64 && Rounded(TWO64 - 1, HEAP_ALLOC_ALIGN) == 0
  {
  }

  /** A request for 2^64 - 1 bytes is rounded to none, and succeeds. */
  method HugeRequest() returns (heap: Heap, ret: Option<nat>)
    ensures fresh(heap) && ret.Some? && heap.used == [Node(ret.value, 0)]
  {
    hide Tiled, Rounded, CanAlloc, CarvedFrom, RoundDown, PowerOfTwo;
    Sixteenth();
    RoundedValues();
    heap := new Heap(START, TOTAL);
    Front(FIRST, heap.size, |heap.spare|, TWO64 - 1);
    ret := heap.AllocWithAlign(HEAP_ALLOC_ALIGN, TWO64 - 1);
  }

  method ThreeAllocations() returns (heap: Heap)
    ensures fresh(heap) && heap.Valid() && heap.size > 192
    ensures heap.used == [Node(FIRST, 64), Node(FIRST + 64, 64), Node(FIRST + 128, 64)]
    ensures heap.free == [Node(FIRST + 192, heap.size - 192)]
  {
    hide Tiled, Rounded, CanAlloc, CarvedFrom, RoundDown, PowerOfTwo;
    Sixteenth();
    RoundedValues();
    heap := new Heap(START, TOTAL);
    Front(FIRST, heap.size, |heap.spare|, 64);
    var a := heap.AllocWithAlign(HEAP_ALLOC_ALIGN, 64);
    Front(FIRST + 64, heap.size - 64, |heap.spare|, 64);
    var b := heap.AllocWithAlign(HEAP_ALLOC_ALIGN, 64);
    Front(FIRST + 128, heap.size - 128, |heap.spare|, 64);
    var c := heap.AllocWithAlign(HEAP_ALLOC_ALIGN, 64);
  }

  /** Three allocations, then the first, the third and the second are freed: the free list has two
      neighbouring regions, which stay apart. */
  method MergesOnce() returns (heap: Heap)
    ensures fresh(heap) && heap.used == [] && !Coalesced(heap.free)
  {
    hide Tiled;
    heap := ThreeAllocations();
    ghost var k, stop;
    ghost var u := heap.used;
    k, stop := heap.FreeFrom(FIRST);
    assert u[0].Has(FIRST) && k == 0 && Remove(u, 0) == [Node(FIRST + 64, 64), Node(FIRST + 128, 64)];
    assert stop == 1 && heap.free == [Node(FIRST + 192, heap.size - 192), Node(FIRST, 64)];
    u := heap.used;
    assert Stops(heap.free[0], u[1]);
    k, stop := heap.FreeFrom(FIRST + 128);
    assert u[1].Has(FIRST + 128) && k == 1 && Remove(u, 1) == [Node(FIRST + 64, 64)];
    assert stop == 0 && heap.free == [Node(FIRST + 128, heap.size - 128), Node(FIRST, 64)];
    u := heap.used;
    assert Stops(heap.free[0], u[0]);
    k, stop := heap.FreeFrom(FIRST + 64);
    assert u[0].Has(FIRST + 64) && k == 0 && Remove(u, 0) == [];
    assert stop == 0 && Touch(heap.free[0], heap.free[1]);
  }
}
