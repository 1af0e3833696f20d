/**
 Memory regions of a firmware domain: firmware/lib/sbi/sbi_domain.c. A region is a naturally aligned
 block of 2^order bytes with access flags; a domain has a list of them. Addresses are 64 bits wide.
 */
module SbiDomain {
  import opened Common

  const XLEN: nat := 64

  datatype Access = Access(read: bool, write: bool, execute: bool) {
    /** The region's rights include the ones asked for. */
    predicate Allows(want: Access) {
      (want.read ==> read) && (want.write ==> write) && (want.execute ==> execute)
    }
  }

  datatype Region = Region(base: nat, order: nat, m: Access, su: Access, mmio: bool) {
    function End(): nat {
      base + Pow2(order)
    }

    predicate Has(x: nat) {
      base <= x < End()
    }
  }

  /** is_region_valid */
  ghost predicate RegionOk(r: Region) {
    && 3 <= r.order <= XLEN && r.End() <= TWO64 && (exists k: nat :: r.base == k * Pow2(r.order))
    && (r.order == XLEN ==> r.base == 0)
  }

  /** is_region_before */
  predicate Before(a: Region, b: Region) {
    a.order < b.order || (a.order == b.order && a.base < b.base)
  }

  /** The last address of a region, as is_region_subset computes it in 64 bits. For order 64 that is a shift
      by 64, which C leaves undefined; `bit` is its value, 0 if the bit is lost and 1 if the machine takes the
      count modulo 64. */
  function Last(bit: nat, r: Region): nat {
    if r.order < XLEN then r.End() - 1 else (r.base + bit + (TWO64 - 1)) % TWO64
  }

  /** is_region_subset */
  predicate Subset(bit: nat, a: Region, b: Region) {
    b.base <= a.base < Last(bit, b) && b.base < Last(bit, a) <= Last(bit, b)
  }

  ghost predicate Sorted(rs: seq<Region>) {
    forall i, j | 0 <= i < j < |rs| :: !Before(rs[j], rs[i])
  }

  /** By order, and by base for the same order. */
  lemma SortedIs(rs: seq<Region>)
    ensures Sorted(rs) <==> forall i, j | 0 <= i < j < |rs| ::
      rs[i].order < rs[j].order || (rs[i].order == rs[j].order && rs[i].base <= rs[j].base)
  {
  }

  // Powers of two.

  /** Multiples of p on either side of x. */
  lemma MultipleBelow(k: nat, c: nat, p: nat, x: nat)
    requires k * p <= x < c * p
    ensures k < c
  {
    if c <= k {
      MulMono(c, k, p);
    }
  }

  /** Aligned blocks that share an address are nested. */
  lemma Nested(bit: nat, a: Region, b: Region, x: nat)
    requires RegionOk(a) && RegionOk(b) && a.order <= b.order && a.Has(x) && b.Has(x)
    ensures b.base <= a.base && a.End() <= b.End() && (b.order < XLEN || bit == 0 ==> Subset(bit, a, b))
  {
    hide Pow2;
    var p, m := Pow2(a.order), Pow2(b.order - a.order);
    var k: nat :| a.base == k * p;
    var l: nat :| b.base == l * Pow2(b.order);
    Pow2Add(b.order - a.order, a.order);
    NestedMultiples(k, l, m, p, x);
    AtLeastEight(a.order);
  }

  lemma NestedMultiples(k: nat, l: nat, m: nat, p: nat, x: nat)
    requires k * p <= x < k * p + p && l * (m * p) <= x < l * (m * p) + m * p
    ensures l * (m * p) <= k * p && k * p + p <= l * (m * p) + m * p
  {
    var c := l * m;
    assert l * (m * p) == c * p && l * (m * p) + m * p == (c + m) * p && k * p + p == (k + 1) * p;
    MultipleBelow(c, k + 1, p, x);
    MultipleBelow(k, c + m, p, x);
    MulMono(c, k, p);
    MulMono(k + 1, c + m, p);
  }

  lemma AtLeastEight(n: nat)
    requires n >= 3
    ensures Pow2(n) >= 8
  {
    Pow2Mono(3, n);
    assert Pow2(1) == 2 && Pow2(2) == 4 && Pow2(3) == 8;
  }

  // Looking an address up.

  /** The first region of the list, from i on, that contains x. */
  function FirstFrom(rs: seq<Region>, x: nat, i: nat): Option<nat>
    requires i <= |rs|
    decreases |rs| - i
  {
    if i == |rs| then None else if rs[i].Has(x) then Some(i) else FirstFrom(rs, x, i + 1)
  }

  function First(rs: seq<Region>, x: nat): Option<nat> {
    FirstFrom(rs, x, 0)
  }

  lemma {:induction false} FirstIs(rs: seq<Region>, x: nat, i: nat)
    requires i <= |rs|
    ensures match FirstFrom(rs, x, i)
      case None => forall j | i <= j < |rs| :: !rs[j].Has(x)
      case Some(k) => i <= k < |rs| && rs[k].Has(x) && forall j | i <= j < k :: !rs[j].Has(x)
    decreases |rs| - i
  {
    if i < |rs| && !rs[i].Has(x) {
      FirstIs(rs, x, i + 1);
    }
  }

  lemma FirstAt(rs: seq<Region>, x: nat, k: nat)
    requires k < |rs| && rs[k].Has(x) && forall j | 0 <= j < k :: !rs[j].Has(x)
    ensures First(rs, x) == Some(k)
  {
    FirstIs(rs, x, 0);
  }

  /** find_region */
  method FindRegion(rs: seq<Region>, addr: nat) returns (r: Option<nat>)
    ensures r == First(rs, addr)
  {
    r := None;
    var i := 0;
    while i < |rs| && r.None?
      invariant 0 <= i <= |rs| && (if r.Some? then First(rs, addr) == r else First(rs, addr) == FirstFrom(rs, addr, i))
    {
      if rs[i].Has(addr) {
        r := Some(i);
      }
      i := i + 1;
    }
  }

  datatype Want = Want(machine: bool, access: Access, mmio: bool)

  predicate Grants(r: Region, want: Want) {
    r.mmio == want.mmio && (if want.machine then r.m else r.su).Allows(want.access)
  }

  /** sbi_domain_check_addr: the first region that contains the address decides; outside all regions
      only machine mode passes. */
  function CheckAddr(rs: seq<Region>, addr: nat, want: Want): bool {
    match First(rs, addr)
    case None => want.machine
    case Some(i) => i < |rs| && Grants(rs[i], want)
  }

  /** On a sorted list the region that decides is the smallest one that contains the address. */
  lemma SmallestDecides(rs: seq<Region>, addr: nat, want: Want, k: nat)
    requires Sorted(rs) && First(rs, addr) == Some(k)
    ensures k < |rs| && rs[k].Has(addr) && CheckAddr(rs, addr, want) == Grants(rs[k], want)
    ensures forall j | 0 <= j < |rs| && rs[j].Has(addr) :: rs[k].order <= rs[j].order
  {
    FirstIs(rs, addr, 0);
    forall j | 0 <= j < |rs| && rs[j].Has(addr) ensures rs[k].order <= rs[j].order {
      assert j == k || !Before(rs[j], rs[k]);
    }
  }

  /** Without a region for the address exactly machine mode passes. */
  lemma OutsideRegions(rs: seq<Region>, addr: nat, want: Want)
    requires forall j | 0 <= j < |rs| :: !rs[j].Has(addr)
    ensures CheckAddr(rs, addr, want) <==> want.machine
  {
    FirstIs(rs, addr, 0);
  }

  /** Of the regions that contain the address, k is the smallest, or the first of several of that size. */
  ghost predicate Smallest(rs: seq<Region>, addr: nat, k: nat) {
    && k < |rs| && rs[k].Has(addr)
    && forall j | 0 <= j < |rs| && rs[j].Has(addr) ::
         rs[k].order < rs[j].order || (rs[k].order == rs[j].order && k <= j)
  }

  /** Otherwise, on a sorted list, the smallest region decides, right by right. */
  lemma InsideRegions(rs: seq<Region>, addr: nat, want: Want, k: nat)
    requires Sorted(rs) && Smallest(rs, addr, k)
    ensures var r, a := rs[k], want.access;
      CheckAddr(rs, addr, want) <==>
        && (r.mmio <==> want.mmio)
        && (a.read ==> if want.machine then r.m.read else r.su.read)
        && (a.write ==> if want.machine then r.m.write else r.su.write)
        && (a.execute ==> if want.machine then r.m.execute else r.su.execute)
  {
    FirstIs(rs, addr, 0);
    assert First(rs, addr) == Some(k);
  }

  // The flags of a region and of a question as they are stored.

  predicate Bit(flags: bv64, n: bv7)
    requires n <= 64
  {
    (flags >> n) & 1 == 1
  }

  datatype Stored = Stored(base: nat, order: nat, flags: bv64) {
    /** The rights of machine mode are the bits from 0 on, the others those from 3 on. */
    function Meaning(): Region {
      Region(base, order, Access(Bit(flags, 0), Bit(flags, 1), Bit(flags, 2)),
             Access(Bit(flags, 3), Bit(flags, 4), Bit(flags, 5)), Bit(flags, 31))
    }
  }

  function Meanings(rs: seq<Stored>): seq<Region> {
    seq(|rs|, i requires 0 <= i < |rs| => rs[i].Meaning())
  }

  function Asked(machine: bool, flags: bv64): Want {
    Want(machine, Access(Bit(flags, 0), Bit(flags, 1), Bit(flags, 2)), Bit(flags, 3))
  }

  const M_READABLE: bv64 := 1
  const M_WRITABLE: bv64 := 2
  const M_EXECUTABLE: bv64 := 4
  const M_ACCESS_MASK: bv64 := 7
  const SU_ACCESS_MASK: bv64 := 0x38
  const MMIO: bv64 := 0x8000_0000

  /** The rights asked for, as bits of a region's flags. */
  function WantedBits(access: bv64): bv64 {
    (if access & 1 != 0 then M_READABLE else 0) | (if access & 2 != 0 then M_WRITABLE else 0)
    | (if access & 4 != 0 then M_EXECUTABLE else 0)
  }

  /** The test of one region by masks and a shift. */
  predicate TestBits(machine: bool, access: bv64, flags: bv64) {
    var given := if machine then flags & M_ACCESS_MASK else (flags & SU_ACCESS_MASK) >> 3;
    ((access & 8 != 0) == (flags & MMIO != 0)) && given & WantedBits(access) == WantedBits(access)
  }

  lemma TestBitsIs(machine: bool, access: bv64, r: Stored)
    ensures TestBits(machine, access, r.flags) <==> Grants(r.Meaning(), Asked(machine, access))
  {
  }

  /** sbi_domain_check_addr on the flags as stored. */
  method RunCheckAddr(rs: seq<Stored>, addr: nat, machine: bool, access: bv64) returns (ok: bool)
    ensures ok <==> CheckAddr(Meanings(rs), addr, Asked(machine, access))
  {
    hide TestBits, Bit;
    ghost var all := Meanings(rs);
    var i := 0;
    while i < |rs|
      invariant 0 <= i <= |rs| && First(all, addr) == FirstFrom(all, addr, i)
    {
      assert all[i] == rs[i].Meaning();
      if rs[i].base <= addr < rs[i].base + Pow2(rs[i].order) {
        TestBitsIs(machine, access, rs[i]);
        return TestBits(machine, access, rs[i].flags);
      }
      i := i + 1;
    }
    return machine;
  }

  /** The first n regions are in their final places. */
  ghost predicate Placed(rs: seq<Region>, n: nat) {
    forall p, q | 0 <= p < q < |rs| && p < n :: !Before(rs[q], rs[p])
  }

  /** rs[i] comes before none of the regions from i to j. */
  ghost predicate Least(rs: seq<Region>, i: nat, j: nat) {
    i < |rs| && forall q: nat | i < q < j && q < |rs| :: !Before(rs[q], rs[i])
  }

  lemma SwapKeeps(rs: seq<Region>, i: nat, j: nat)
    requires Placed(rs, i) && Least(rs, i, j) && i < j < |rs| && Before(rs[j], rs[i])
    ensures var rs' := rs[i := rs[j]][j := rs[i]]; Placed(rs', i) && Least(rs', i, j + 1) && Rearranged(rs, rs')
  {
  }

  ghost predicate Rearranged(rs: seq<Region>, rs': seq<Region>) {
    multiset(rs') == multiset(rs)
  }

  lemma RearrangedTrans(rs: seq<Region>, rs': seq<Region>, rs'': seq<Region>)
    requires Rearranged(rs, rs') && Rearranged(rs', rs'')
    ensures Rearranged(rs, rs'')
  {
  }

  lemma RearrangedSelf(rs: seq<Region>)
    ensures Rearranged(rs, rs)
  {
  }

  /** One comparison of the sort. */
  method Settle(a: array<Region>, i: nat, j: nat)
    requires i < j < a.Length && Placed(a[..], i) && Least(a[..], i, j)
    modifies a
    ensures Placed(a[..], i) && Least(a[..], i, j + 1) && Rearranged(old(a[..]), a[..])
  {
    hide Placed, Least, Before, Rearranged;
    ghost var rs := a[..];
    if Before(a[j], a[i]) {
      SwapKeeps(rs, i, j);
      a[i], a[j] := a[j], a[i];
      assert a[..] == rs[i := rs[j]][j := rs[i]];
    } else {
      LeastStep(rs, i, j);
      RearrangedSelf(rs);
    }
  }

  /** The sort in sanitize_domain. */
  method SortRegions(a: array<Region>)
    requires a.Length >= 1
    modifies a
    ensures Sorted(a[..]) && Rearranged(old(a[..]), a[..])
  {
    hide Placed, Least, Before, Rearranged, Sorted;
    RearrangedSelf(a[..]);
    var count := a.Length;
    var i := 0;
    PlacedSteps(a[..], 0);
    while i < count - 1
      invariant 0 <= i <= count - 1 && Rearranged(old(a[..]), a[..]) && Placed(a[..], i)
    {
      var j := i + 1;
      PlacedSteps(a[..], i);
      while j < count
        invariant i < j <= count && Rearranged(old(a[..]), a[..]) && Placed(a[..], i) && Least(a[..], i, j)
      {
        ghost var rs := a[..];
        Settle(a, i, j);
        RearrangedTrans(old(a[..]), rs, a[..]);
        j := j + 1;
      }
      PlacedNext(a[..], i);
      i := i + 1;
    }
    PlacedSteps(a[..], i);
  }

  lemma PlacedSteps(rs: seq<Region>, i: nat)
    ensures Placed(rs, 0) && (i < |rs| ==> Least(rs, i, i + 1)) && (Placed(rs, i) && i + 1 >= |rs| ==> Sorted(rs))
  {
  }

  lemma LeastStep(rs: seq<Region>, i: nat, j: nat)
    requires Least(rs, i, j) && i < j < |rs| && !Before(rs[j], rs[i])
    ensures Least(rs, i, j + 1)
  {
  }

  lemma PlacedNext(rs: seq<Region>, i: nat)
    requires Placed(rs, i) && Least(rs, i, |rs|)
    ensures Placed(rs, i + 1)
  {
  }

  // The range check.

  /** sreg qualifies in find_next_subset_region. */
  predicate Candidate(bit: nat, rs: seq<Region>, i: nat, addr: nat, j: nat) {
    i < |rs| && j < |rs| && j != i && rs[j].base > addr && Subset(bit, rs[j], rs[i])
  }

  /** The lowest base among the candidates below n. */
  function NextBase(bit: nat, rs: seq<Region>, i: nat, addr: nat, n: nat): (b: Option<nat>)
    requires n <= |rs|
    ensures b.None? ==> forall j: nat | j < n :: !Candidate(bit, rs, i, addr, j)
    ensures b.Some? ==>
      b.value > addr && (forall j: nat | j < n && Candidate(bit, rs, i, addr, j) :: b.value <= rs[j].base)
    ensures b.Some? ==> exists j: nat :: j < n && Candidate(bit, rs, i, addr, j) && rs[j].base == b.value
  {
    if n == 0 then None else
    var b := NextBase(bit, rs, i, addr, n - 1);
    if Candidate(bit, rs, i, addr, n - 1) && (b.None? || rs[n - 1].base < b.value) then Some(rs[n - 1].base) else b
  }

  /** find_next_subset_region: a candidate with the lowest base, and the lowest order among those. */
  method FindNextSubset(bit: nat, rs: seq<Region>, i: nat, addr: nat) returns (r: Option<nat>)
    requires i < |rs|
    ensures r.None? <==> NextBase(bit, rs, i, addr, |rs|).None?
    ensures r.Some? ==> r.value < |rs| && NextBase(bit, rs, i, addr, |rs|) == Some(rs[r.value].base)
  {
    hide Candidate;
    r := None;
    var j := 0;
    while j < |rs|
      invariant 0 <= j <= |rs| && (r.None? <==> NextBase(bit, rs, i, addr, j).None?)
      invariant r.Some? ==> r.value < |rs| && NextBase(bit, rs, i, addr, j) == Some(rs[r.value].base)
    {
      if Candidate(bit, rs, i, addr, j) {
        if r.None? || rs[j].base < rs[r.value].base
          || (rs[j].base == rs[r.value].base && rs[j].order < rs[r.value].order) {
          r := Some(j);
        }
      }
      j := j + 1;
    }
  }

  /** The answer of the range check. Wrapped: the walk stepped over 2^64, to address 0, and goes on. */
  datatype Verdict = Pass | Fail | Wrapped

  /** sbi_domain_check_addr_range's walk from addr up to max. */
  function Walk(bit: nat, rs: seq<Region>, addr: nat, max: nat, want: Want): Verdict
    decreases max - addr
  {
    if addr >= max then Pass else
    match First(rs, addr)
    case None => Fail
    case Some(i) =>
      FirstIs(rs, addr, 0);
      if !Grants(rs[i], want) then Fail else
      match NextBase(bit, rs, i, addr, |rs|)
      case Some(b) => Walk(bit, rs, b, max, want)
      case None =>
        if rs[i].order == XLEN then Pass
        else if rs[i].End() == TWO64 then Wrapped
        else Walk(bit, rs, rs[i].End(), max, want)
  }

  ghost predicate RegionsOk(rs: seq<Region>) {
    Sorted(rs) && forall i | 0 <= i < |rs| :: RegionOk(rs[i])
  }

  predicate Passes(rs: seq<Region>, x: nat, want: Want) {
    First(rs, x).Some? && CheckAddr(rs, x, want)
  }

  ghost predicate AllPass(rs: seq<Region>, addr: nat, max: nat, want: Want) {
    forall x: nat | addr <= x < max :: Passes(rs, x, want)
  }

  /** The last address of the range is decided by a region that reaches the top of the address space,
      without a sub-region at or after max. */
  ghost predicate EndsAtTop(bit: nat, rs: seq<Region>, max: nat) {
    max > 0 && match First(rs, max - 1)
    case None => false
    case Some(i) => i < |rs| && rs[i].order < XLEN && rs[i].End() == TWO64 && NoCandidate(bit, rs, i, max - 1)
  }

  ghost predicate NoCandidate(bit: nat, rs: seq<Region>, i: nat, addr: nat) {
    forall j: nat | j < |rs| :: !Candidate(bit, rs, i, addr, j)
  }

  /** The loop leaves at x by its break: the region for all of memory decides there, and with bit == 1 no region
      counts as a part of it. */
  predicate Halts(bit: nat, rs: seq<Region>, x: nat) {
    bit == 1 && match First(rs, x) case None => false case Some(i) => i < |rs| && rs[i].order == XLEN
  }

  ghost predicate HaltIn(bit: nat, rs: seq<Region>, addr: nat, max: nat) {
    exists y: nat | addr <= y < max :: Halts(bit, rs, y)
  }

  /** Every address up to the first where the loop leaves passes. */
  ghost predicate PassToHalt(bit: nat, rs: seq<Region>, addr: nat, max: nat, want: Want) {
    forall x: nat | addr <= x < max :: Passes(rs, x, want) || HaltIn(bit, rs, addr, x)
  }

  lemma StartsInside(bit: nat, a: Region, b: Region)
    requires RegionOk(b) && Subset(bit, a, b) && (b.order < XLEN || bit == 0)
    ensures a.base < b.End()
  {
    if b.order == XLEN {
      TopOrder(b);
    }
  }

  /** A smaller region further up in region i is one that the walk stops at. */
  lemma BecomesCandidate(bit: nat, rs: seq<Region>, i: nat, addr: nat, j: nat, x: nat)
    requires RegionsOk(rs) && j < i < |rs| && rs[i].Has(x) && !rs[j].Has(addr) && addr <= x
    requires rs[i].order < XLEN || bit == 0
    ensures rs[j].Has(x) ==> Candidate(bit, rs, i, addr, j)
  {
    hide Pow2, Subset, RegionOk;
    if rs[j].Has(x) {
      assert !Before(rs[i], rs[j]);
      Nested(bit, rs[j], rs[i], x);
    }
  }

  /** Up to the next stop the same region decides. */
  lemma SameRegion(bit: nat, rs: seq<Region>, addr: nat, i: nat, x: nat)
    requires RegionsOk(rs) && First(rs, addr) == Some(i) && addr <= x
    requires var b := NextBase(bit, rs, i, addr, |rs|); i < |rs| && x < if b.Some? then b.value else rs[i].End()
    requires rs[i].order < XLEN || bit == 0
    ensures First(rs, x) == Some(i)
  {
    hide Pow2, Subset, RegionOk;
    FirstIs(rs, addr, 0);
    var b := NextBase(bit, rs, i, addr, |rs|);
    if b.Some? {
      var j: nat :| j < |rs| && Candidate(bit, rs, i, addr, j) && rs[j].base == b.value;
      StartsInside(bit, rs[j], rs[i]);
    }
    forall j: nat | j < i ensures !rs[j].Has(x) {
      BecomesCandidate(bit, rs, i, addr, j, x);
    }
    FirstAt(rs, x, i);
  }

  /** Exactly when the walk passes: every address up to the first where the loop leaves lies in a region and
      passes its check, and there is such an address or the range does not end in a region that reaches 2^64. */
  lemma {:induction false} WalkIs(bit: nat, rs: seq<Region>, addr: nat, max: nat, want: Want)
    requires RegionsOk(rs) && addr < max < TWO64 && bit <= 1
    ensures Walk(bit, rs, addr, max, want) == Fail <==> !PassToHalt(bit, rs, addr, max, want)
    ensures Walk(bit, rs, addr, max, want) == Wrapped <==>
      PassToHalt(bit, rs, addr, max, want) && !HaltIn(bit, rs, addr, max) && EndsAtTop(bit, rs, max)
    decreases max - addr
  {
    hide Sorted, Pow2, Subset, PassToHalt, HaltIn, RegionOk;
    FirstIs(rs, addr, 0);
    match First(rs, addr)
    case None => FailsHere(bit, rs, addr, max, want);
    case Some(i) =>
      if !Grants(rs[i], want) {
        FailsHere(bit, rs, addr, max, want);
      } else if Halts(bit, rs, addr) {
        HaltsHere(bit, rs, addr, max, want, i);
      } else {
        OrderBound(rs[i]);
        var b := NextBase(bit, rs, i, addr, |rs|);
        var stop := if b.Some? then b.value else rs[i].End();
        forall x: nat | addr <= x < stop ensures First(rs, x) == Some(i) {
          SameRegion(bit, rs, addr, i, x);
        }
        if stop < max {
          PassOn(bit, rs, addr, stop, max, want, i);
          WalkIs(bit, rs, stop, max, want);
          if rs[i].order == XLEN {
            TopOrder(rs[i]);
          }
        } else {
          PassAll(bit, rs, addr, stop, max, want, i);
          LastStop(bit, rs, addr, max, i);
        }
      }
  }

  lemma FailsHere(bit: nat, rs: seq<Region>, addr: nat, max: nat, want: Want)
    requires addr < max && !Passes(rs, addr, want)
    ensures !PassToHalt(bit, rs, addr, max, want)
  {
  }

  lemma HaltsHere(bit: nat, rs: seq<Region>, addr: nat, max: nat, want: Want, i: nat)
    requires RegionsOk(rs) && addr < max && First(rs, addr) == Some(i) && i < |rs| && Grants(rs[i], want)
    requires Halts(bit, rs, addr)
    ensures PassToHalt(bit, rs, addr, max, want) && HaltIn(bit, rs, addr, max) && Walk(bit, rs, addr, max, want) == Pass
  {
    hide Pow2;
    assert Passes(rs, addr, want);
    forall j: nat | j < |rs| ensures !Candidate(bit, rs, i, addr, j) {
    }
  }

  lemma PassOn(bit: nat, rs: seq<Region>, addr: nat, stop: nat, max: nat, want: Want, i: nat)
    requires addr < stop <= max && i < |rs| && Grants(rs[i], want) && !Halts(bit, rs, addr)
    requires forall x: nat | addr <= x < stop :: First(rs, x) == Some(i)
    ensures PassToHalt(bit, rs, addr, max, want) <==> PassToHalt(bit, rs, stop, max, want)
    ensures HaltIn(bit, rs, addr, max) <==> HaltIn(bit, rs, stop, max)
  {
    forall x: nat | addr <= x < stop ensures Passes(rs, x, want) && !Halts(bit, rs, x) {
      assert First(rs, x) == Some(i) && First(rs, addr) == Some(i);
    }
    hide Passes, Halts;
    forall x: nat | stop <= x <= max ensures HaltIn(bit, rs, addr, x) <==> HaltIn(bit, rs, stop, x) {
      HaltLater(bit, rs, addr, stop, x);
    }
    hide HaltIn;
    if PassToHalt(bit, rs, addr, max, want) {
      forall x: nat | stop <= x < max ensures Passes(rs, x, want) || HaltIn(bit, rs, stop, x) {
        assert Passes(rs, x, want) || HaltIn(bit, rs, addr, x);
      }
    }
  }

  lemma HaltLater(bit: nat, rs: seq<Region>, addr: nat, stop: nat, x: nat)
    requires addr <= stop <= x && forall y: nat | addr <= y < stop :: !Halts(bit, rs, y)
    ensures HaltIn(bit, rs, addr, x) <==> HaltIn(bit, rs, stop, x)
  {
  }

  lemma PassAll(bit: nat, rs: seq<Region>, addr: nat, stop: nat, max: nat, want: Want, i: nat)
    requires addr < max <= stop && i < |rs| && Grants(rs[i], want) && !Halts(bit, rs, addr)
    requires forall x: nat | addr <= x < stop :: First(rs, x) == Some(i)
    ensures PassToHalt(bit, rs, addr, max, want) && !HaltIn(bit, rs, addr, max)
  {
    forall x: nat | addr <= x < max ensures Passes(rs, x, want) && !Halts(bit, rs, x) {
      assert First(rs, x) == Some(i) && First(rs, addr) == Some(i);
    }
  }

  lemma OrderBound(r: Region)
    requires RegionOk(r)
    ensures 3 <= r.order <= XLEN
  {
  }

  lemma TopOrder(r: Region)
    requires RegionOk(r) && r.order == XLEN
    ensures r.End() == TWO64
  {
    Pow2Values();
    assert Pow2(64) == 2 * Pow2(63);
  }

  lemma LastStop(bit: nat, rs: seq<Region>, addr: nat, max: nat, i: nat)
    requires addr < max && First(rs, max - 1) == Some(i) && i < |rs|
    requires var b := NextBase(bit, rs, i, addr, |rs|); max <= if b.Some? then b.value else rs[i].End()
    ensures EndsAtTop(bit, rs, max) <==>
      NextBase(bit, rs, i, addr, |rs|).None? && rs[i].End() == TWO64 && rs[i].order < XLEN
  {
    hide Pow2;
    var b := NextBase(bit, rs, i, addr, |rs|);
    if b.Some? {
      var j: nat :| j < |rs| && Candidate(bit, rs, i, addr, j) && rs[j].base == b.value;
      assert Candidate(bit, rs, i, max - 1, j);
    } else {
      var last := max - 1;
      forall j: nat | j < |rs| ensures !Candidate(bit, rs, i, last, j) {
        assert !Candidate(bit, rs, i, addr, j);
      }
    }
  }

  // The loop goes on after a wrap-around.

  /** It has returned, or it is at the test with a cursor. */
  datatype Loop = Returns(b: bool) | Looks(cur: nat)

  /** One round of the loop of sbi_domain_check_addr_range, its sum in 64 bits. */
  function Round(bit: nat, rs: seq<Region>, max: nat, want: Want, cur: nat): Loop {
    if cur >= max then Returns(true) else
    match First(rs, cur)
    case None => Returns(false)
    case Some(i) =>
      FirstIs(rs, cur, 0);
      if !Grants(rs[i], want) then Returns(false) else
      match NextBase(bit, rs, i, cur, |rs|)
      case Some(b) => Looks(b)
      case None => if rs[i].order == XLEN then Returns(true) else Looks(rs[i].End() % TWO64)
  }

  function Rounds(bit: nat, rs: seq<Region>, max: nat, want: Want, cur: nat, n: nat): Loop
    decreases n
  {
    if n == 0 then Looks(cur) else
    match Round(bit, rs, max, want, cur)
    case Returns(b) => Returns(b)
    case Looks(c) => Rounds(bit, rs, max, want, c, n - 1)
  }

  lemma {:induction false} RoundsAdd(bit: nat, rs: seq<Region>, max: nat, want: Want, cur: nat, n: nat, m: nat)
    ensures Rounds(bit, rs, max, want, cur, n + m) ==
      match Rounds(bit, rs, max, want, cur, n) case Returns(b) => Returns(b) case Looks(c) =>
        Rounds(bit, rs, max, want, c, m)
    decreases n
  {
    hide Round;
    if n > 0 {
      match Round(bit, rs, max, want, cur)
      case Returns(b) =>
      case Looks(c) => RoundsAdd(bit, rs, max, want, c, n - 1, m);
    }
  }

  /** A round goes up, or over 2^64 to 0. */
  lemma WalkRound(bit: nat, rs: seq<Region>, max: nat, want: Want, cur: nat)
    requires forall i | 0 <= i < |rs| :: RegionOk(rs[i])
    ensures match Round(bit, rs, max, want, cur)
      case Returns(b) => Walk(bit, rs, cur, max, want) == if b then Pass else Fail
      case Looks(c) =>
        if c == 0 then Walk(bit, rs, cur, max, want) == Wrapped
        else cur < c && Walk(bit, rs, cur, max, want) == Walk(bit, rs, c, max, want)
  {
    hide Pow2, RegionOk, FirstFrom, Grants, NextBase, Candidate;
    if cur < max && First(rs, cur).Some? {
      FirstIs(rs, cur, 0);
      EndBound(rs[First(rs, cur).value]);
    }
  }

  /** What the loop does when the walk comes to a verdict. */
  function LoopFor(v: Verdict): Loop {
    match v
    case Pass => Returns(true)
    case Fail => Returns(false)
    case Wrapped => Looks(0)
  }

  /** The walk is a number of rounds, to an answer or to cursor 0. */
  lemma {:induction false} WalkRounds(bit: nat, rs: seq<Region>, addr: nat, max: nat, want: Want) returns (n: nat)
    requires forall i | 0 <= i < |rs| :: RegionOk(rs[i])
    ensures n > 0 && Rounds(bit, rs, max, want, addr, n) == LoopFor(Walk(bit, rs, addr, max, want))
    decreases max - addr
  {
    hide Walk, Round, RegionOk;
    n := 1;
    WalkRound(bit, rs, max, want, addr);
    match Round(bit, rs, max, want, addr) {
      case Returns(b) =>
      case Looks(c) =>
        if c != 0 {
          StillBelow(bit, rs, max, want, addr);
          var k := WalkRounds(bit, rs, c, max, want);
          n := k + 1;
        } else {
          assert Rounds(bit, rs, max, want, 0, 0) == Looks(0);
        }
    }
  }

  lemma StillBelow(bit: nat, rs: seq<Region>, max: nat, want: Want, cur: nat)
    ensures Round(bit, rs, max, want, cur).Looks? ==> cur < max
  {
  }

  /** What the check comes to: an answer, or none. */
  datatype Answer = Yes | No | Never

  function AnswerOf(bit: nat, rs: seq<Region>, addr: nat, max: nat, want: Want): Answer {
    match Walk(bit, rs, addr, max, want)
    case Pass => Yes
    case Fail => No
    case Wrapped => match Walk(bit, rs, 0, max, want) case Pass => Yes case Fail => No case Wrapped => Never
  }

  /** When it answers what. Without a region for all of memory, or with bit == 0, it is true exactly if every address
      passes and the range does not end in a region that reaches 2^64; not at all if it does and everything below
      its end passes too. With bit == 1 the addresses after the first where the loop leaves are not looked at. */
  lemma AnswerIs(bit: nat, rs: seq<Region>, addr: nat, max: nat, want: Want)
    requires RegionsOk(rs) && addr < max < TWO64 && bit <= 1
    ensures AnswerOf(bit, rs, addr, max, want) == Yes <==>
      && PassToHalt(bit, rs, addr, max, want)
      && (HaltIn(bit, rs, addr, max) || !EndsAtTop(bit, rs, max)
          || (HaltIn(bit, rs, 0, max) && PassToHalt(bit, rs, 0, max, want)))
    ensures AnswerOf(bit, rs, addr, max, want) == Never <==>
      AllPass(rs, 0, max, want) && !HaltIn(bit, rs, 0, max) && EndsAtTop(bit, rs, max)
  {
    hide Walk, RegionsOk, Passes, Halts;
    WalkIs(bit, rs, addr, max, want);
    WalkIs(bit, rs, 0, max, want);
    NoHalt(bit, rs, 0, max, want);
    NoHalt(bit, rs, addr, max, want);
  }

  /** Where the loop does not leave, every address is looked at. */
  lemma NoHalt(bit: nat, rs: seq<Region>, addr: nat, max: nat, want: Want)
    ensures !HaltIn(bit, rs, addr, max) ==> (PassToHalt(bit, rs, addr, max, want) <==> AllPass(rs, addr, max, want))
    ensures AllPass(rs, addr, max, want) ==> PassToHalt(bit, rs, addr, max, want)
  {
    hide Passes, Halts;
    if !HaltIn(bit, rs, addr, max) {
      forall x: nat | addr <= x < max ensures !HaltIn(bit, rs, addr, x) {
      }
    }
  }

  /** With bit == 1, exactly when it accepts a range with an address that does not pass: some address before that is
      decided by the region for all of memory, and every address up to there passes. */
  lemma AcceptsUnseen(rs: seq<Region>, addr: nat, max: nat, want: Want)
    requires RegionsOk(rs) && addr < max < TWO64
    ensures AnswerOf(1, rs, addr, max, want) == Yes && !AllPass(rs, addr, max, want) <==>
      exists g: nat | addr <= g < max ::
        Halts(1, rs, g) && AllPass(rs, addr, g + 1, want) && !AllPass(rs, g + 1, max, want)
  {
    hide AnswerOf, RegionsOk, Passes, Halts, EndsAtTop;
    AnswerIs(1, rs, addr, max, want);
    NoHalt(1, rs, addr, max, want);
    if PassToHalt(1, rs, addr, max, want) && HaltIn(1, rs, addr, max) {
      var g := FirstHalt(1, rs, addr, max);
      forall x: nat | addr <= x < g + 1 ensures Passes(rs, x, want) {
        assert !HaltIn(1, rs, addr, x);
      }
      assert Halts(1, rs, g) && AllPass(rs, addr, g + 1, want);
    }
    forall g: nat | addr <= g < max && Halts(1, rs, g) && AllPass(rs, addr, g + 1, want)
      ensures PassToHalt(1, rs, addr, max, want) && HaltIn(1, rs, addr, max)
    {
      forall x: nat | addr <= x < max ensures Passes(rs, x, want) || HaltIn(1, rs, addr, x) {
      }
    }
  }

  lemma {:induction false} FirstHalt(bit: nat, rs: seq<Region>, addr: nat, max: nat) returns (g: nat)
    requires HaltIn(bit, rs, addr, max)
    ensures addr <= g < max && Halts(bit, rs, g) && forall x: nat | addr <= x < g :: !Halts(bit, rs, x)
    decreases max - addr
  {
    hide Halts;
    if Halts(bit, rs, addr) {
      g := addr;
    } else {
      g := FirstHalt(bit, rs, addr + 1, max);
    }
  }

  lemma RoundsNone(bit: nat, rs: seq<Region>, max: nat, want: Want)
    ensures Rounds(bit, rs, max, want, 0, 0) == Looks(0)
  {
  }

  lemma {:induction false} AgainAndAgain(bit: nat, rs: seq<Region>, max: nat, want: Want, k: nat, j: nat)
    requires Rounds(bit, rs, max, want, 0, k) == Looks(0)
    ensures Rounds(bit, rs, max, want, 0, j * k) == Looks(0)
  {
    hide Round, Rounds;
    RoundsNone(bit, rs, max, want);
    if j > 0 {
      AgainAndAgain(bit, rs, max, want, k, j - 1);
      assert j * k == (j - 1) * k + k;
      RoundsAdd(bit, rs, max, want, 0, (j - 1) * k, k);
    }
  }

  /** The loop then runs for ever. */
  lemma RunsForEver(bit: nat, rs: seq<Region>, addr: nat, max: nat, want: Want, n: nat)
    requires (forall i | 0 <= i < |rs| :: RegionOk(rs[i])) && AnswerOf(bit, rs, addr, max, want) == Never
    ensures Rounds(bit, rs, max, want, addr, n).Looks?
  {
    hide Round, RegionOk, Rounds, Walk;
    var a := WalkRounds(bit, rs, addr, max, want);
    var k := WalkRounds(bit, rs, 0, max, want);
    AgainAndAgain(bit, rs, max, want, k, n);
    RoundsAdd(bit, rs, max, want, addr, a, n * k);
    MulMono(1, k, n);
    RoundsAdd(bit, rs, max, want, addr, n, a + n * k - n);
  }

  /** Otherwise it returns the answer. */
  lemma ReturnsAnswer(bit: nat, rs: seq<Region>, addr: nat, max: nat, want: Want) returns (n: nat)
    requires (forall i | 0 <= i < |rs| :: RegionOk(rs[i])) && AnswerOf(bit, rs, addr, max, want) != Never
    ensures Rounds(bit, rs, max, want, addr, n) == Returns(AnswerOf(bit, rs, addr, max, want) == Yes)
  {
    hide Round, RegionOk, Rounds, Walk;
    n := WalkRounds(bit, rs, addr, max, want);
    if Walk(bit, rs, addr, max, want) == Wrapped {
      var k := WalkRounds(bit, rs, 0, max, want);
      RoundsAdd(bit, rs, max, want, addr, n, k);
      n := n + k;
    }
  }

  lemma EndBound(r: Region)
    requires RegionOk(r)
    ensures 0 < r.End() <= TWO64
  {
  }

  /** sbi_domain_check_addr_range. The second wrap-around shows that it never returns. */
  method CheckAddrRange(bit: nat, rs: seq<Region>, addr: nat, size: nat, want: Want) returns (v: Answer)
    requires addr < TWO64 && size < TWO64 && forall i | 0 <= i < |rs| :: RegionOk(rs[i])
    ensures addr + size < TWO64 ==> v == AnswerOf(bit, rs, addr, addr + size, want)
    ensures addr + size >= TWO64 ==> v == Yes
  {
    hide Walk, Round, RegionOk, NextBase;
    var max := (addr + size) % TWO64;
    var cur: nat, wrapped := addr, false;
    while cur < max
      invariant addr + size >= TWO64 ==> cur == addr && max <= cur
      invariant addr + size < TWO64 && !wrapped ==> Walk(bit, rs, cur, max, want) == Walk(bit, rs, addr, max, want)
      invariant addr + size < TWO64 && wrapped ==> Walk(bit, rs, addr, max, want) == Wrapped
      invariant addr + size < TWO64 && wrapped ==> Walk(bit, rs, cur, max, want) == Walk(bit, rs, 0, max, want)
      decreases !wrapped, max - cur
    {
      WalkRound(bit, rs, max, want, cur);
      var next := OneRound(bit, rs, max, want, cur);
      if next.Returns? {
        return if next.b then Yes else No;
      }
      cur := next.cur;
      if cur == 0 {
        if wrapped {
          return Never;
        }
        wrapped := true;
      }
    }
    WalkEnds(bit, rs, cur, max, want);
    v := Yes;
  }

  lemma WalkEnds(bit: nat, rs: seq<Region>, cur: nat, max: nat, want: Want)
    requires cur >= max
    ensures Walk(bit, rs, cur, max, want) == Pass
  {
  }

  /** The body of the loop. */
  method OneRound(bit: nat, rs: seq<Region>, max: nat, want: Want, cur: nat) returns (next: Loop)
    requires cur < max && forall i | 0 <= i < |rs| :: RegionOk(rs[i])
    ensures next == Round(bit, rs, max, want, cur)
  {
    hide NextBase, RegionOk, Pow2;
    FirstIs(rs, cur, 0);
    var i := FindRegion(rs, cur);
    if i.None? || !CheckAddr(rs, cur, want) {
      return Returns(false);
    }
    var s := FindNextSubset(bit, rs, i.value, cur);
    OrderBound(rs[i.value]);
    if s.Some? {
      next := Looks(rs[s.value].base);
    } else if rs[i.value].order < XLEN {
      next := Looks(rs[i.value].End() % TWO64);
    } else {
      next := Returns(true);
    }
  }

  const HALF: nat := 0x8000_0000_0000_0000
  const READ := Want(false, Access(true, false, false), false)
  const UPPER := Region(HALF, 63, Access(true, true, true), Access(true, true, true), false)

  lemma Pow2Values()
    ensures Pow2(63) == HALF
  {
    assert Pow2(1) == 2 && Pow2(2) == 4 && Pow2(3) == 8;
    Pow2Add(3, 4);
    Pow2Add(2, 2);
    Pow2Add(7, 8);
    Pow2Add(4, 4);
    Pow2Add(15, 16);
    Pow2Add(8, 8);
    Pow2Add(31, 32);
    Pow2Add(16, 16);
  }

  /** One region for the upper half of the address space: eight readable bytes in it are not accepted, for
      the walk goes on from 0, where there is no region. */
  lemma WrapsAtTop(bit: nat)
    ensures RegionsOk([UPPER]) && AllPass([UPPER], HALF, HALF + 8, READ)
    ensures Walk(bit, [UPPER], HALF, HALF + 8, READ) == Wrapped
  {
    hide Pow2;
    Pow2Values();
    assert UPPER.base == 1 * Pow2(63);
    forall x: nat | HALF <= x < HALF + 8 ensures Passes([UPPER], x, READ) {
      FirstAt([UPPER], x, 0);
    }
    FirstAt([UPPER], HALF, 0);
  }

  const LOWER := Region(0, 63, Access(true, true, true), Access(true, true, true), false)

  /** With a second region for the lower half, checking the same eight bytes never returns. */
  lemma NeverReturns(bit: nat)
    requires bit <= 1
    ensures RegionsOk([LOWER, UPPER]) && AnswerOf(bit, [LOWER, UPPER], HALF, HALF + 8, READ) == Never
  {
    hide Pow2, AnswerOf, Walk;
    Pow2Values();
    assert UPPER.base == 1 * Pow2(63) && LOWER.base == 0 * Pow2(63);
    var rs := [LOWER, UPPER];
    forall x: nat | x < HALF + 8 ensures Passes(rs, x, READ) {
      FirstAt(rs, x, if x < HALF then 0 else 1);
    }
    FirstAt(rs, HALF + 7, 1);
    assert EndsAtTop(bit, rs, HALF + 8);
    AnswerIs(bit, rs, HALF, HALF + 8, READ);
  }

  const WHOLE := Region(0, 64, Access(true, true, true), Access(true, true, true), false)
  const FIRMWARE := Region(0x8000_0000, 19, Access(true, true, true), Access(false, false, false), false)

  lemma FirmwareSize()
    ensures Pow2(19) == 0x8_0000 && Pow2(64) == TWO64
  {
    Pow2Values();
    assert Pow2(64) == 2 * Pow2(63);
    assert Pow2(1) == 2 && Pow2(2) == 4 && Pow2(3) == 8;
    Pow2Add(3, 16);
    Pow2Add(2, 2);
    Pow2Add(4, 4);
    Pow2Add(8, 8);
  }

  /** A domain with all of memory and a part that only the firmware may use. A range of sixteen bytes that runs
      into that part is accepted with bit == 1, and is not with bit == 0. */
  lemma RunsIntoFirmware()
    ensures RegionsOk([FIRMWARE, WHOLE]) && !Passes([FIRMWARE, WHOLE], 0x8000_0000, READ)
    ensures AnswerOf(1, [FIRMWARE, WHOLE], 0x7fff_fff8, 0x8000_0008, READ) == Yes
    ensures AnswerOf(0, [FIRMWARE, WHOLE], 0x7fff_fff8, 0x8000_0008, READ) != Yes
  {
    hide Pow2, AnswerOf, Walk;
    FirmwareSize();
    var rs := [FIRMWARE, WHOLE];
    assert FIRMWARE.base == 4096 * Pow2(19) && WHOLE.base == 0 * Pow2(64);
    FirstAt(rs, 0x7fff_fff8, 1);
    FirstAt(rs, 0x8000_0000, 0);
    assert Passes(rs, 0x7fff_fff8, READ) && Halts(1, rs, 0x7fff_fff8);
    HaltsHere(1, rs, 0x7fff_fff8, 0x8000_0008, READ, 1);
    AnswerIs(1, rs, 0x7fff_fff8, 0x8000_0008, READ);
    AnswerIs(0, rs, 0x7fff_fff8, 0x8000_0008, READ);
    assert !HaltIn(0, rs, 0x7fff_fff8, 0x8000_0000);
  }

  // Making a region for a range.

  /** The block of 2^order bytes that contains addr. */
  function Block(addr: nat, order: nat): Region {
    Region(RoundDown(addr, Pow2(order)), order, Access(false, false, false), Access(false, false, false), false)
  }

  /** That block covers the whole range. */
  predicate Covers(addr: nat, size: nat, order: nat) {
    addr + size <= Block(addr, order).End()
  }

  /** log2roundup */
  method Log2Roundup(x: nat) returns (r: nat)
    ensures r <= XLEN && (r < XLEN ==> x <= Pow2(r)) && forall o: nat | o < r :: Pow2(o) < x
  {
    r := 0;
    while r < XLEN && !(x <= Pow2(r))
      invariant 0 <= r <= XLEN && forall o: nat | o < r :: Pow2(o) < x
    {
      r := r + 1;
    }
  }

  /** The last address of the range, in 64 bits: below addr if the range wraps or is empty. */
  function Last64(addr: nat, size: nat): nat {
    (addr + size + TWO64 - 1) % TWO64
  }

  /** The test of sbi_domain_memregion_init, its sums in 64 bits. */
  predicate Accepts(addr: nat, size: nat, order: nat) {
    var base, end := Block(addr, order).base, Block(addr, order).End();
    var end64 := if end < TWO64 then end else end - TWO64;
    base <= addr < end64 && base <= Last64(addr, size) < end64
  }

  /** The block holds both ends of the range, is at least as large, and ends below 2^64. */
  predicate Holds(addr: nat, size: nat, order: nat) {
    size <= Pow2(order) && Block(addr, order).base <= Last64(addr, size) < Block(addr, order).End() < TWO64
  }

  /** On a range that does not wrap that is: it covers the range, and ends below 2^64. */
  lemma HoldsIsCovers(addr: nat, size: nat, order: nat)
    requires 0 < size && addr + size <= TWO64
    ensures Holds(addr, size, order) <==> Covers(addr, size, order) && Block(addr, order).End() < TWO64
  {
    hide Pow2, RoundDown;
    RoundDownIs(addr, Pow2(order));
    assert Last64(addr, size) == addr + size - 1;
  }

  /** A block that ends at 2^64 is never accepted. */
  lemma AcceptsIs(addr: nat, size: nat, order: nat)
    requires order < XLEN && size <= Pow2(order)
    ensures Accepts(addr, size, order) <==> Holds(addr, size, order)
  {
    hide Pow2, RoundDown, Last64;
    RoundDownIs(addr, Pow2(order));
    Pow2Mono(order, 63);
    Pow2Values();
  }

  /** sbi_domain_memregion_init: the smallest block that holds the range and ends below 2^64; order 64 and
      base 0, the whole address space, if there is none. */
  method MemregionInit(addr: nat, size: nat) returns (base: nat, order: nat)
    requires addr < TWO64 && size < TWO64
    ensures order <= XLEN && (order == XLEN ==> base == 0)
    ensures order < XLEN ==> base == Block(addr, order).base && Holds(addr, size, order)
    ensures forall o: nat | o < order :: !Holds(addr, size, o)
  {
    hide Pow2, Accepts, Block, Last64;
    order := Log2Roundup(size);
    ghost var least := order;
    while order < XLEN && !Accepts(addr, size, order)
      invariant least <= order <= XLEN && forall o: nat | o < order :: !Holds(addr, size, o)
    {
      Pow2Mono(least, order);
      AcceptsIs(addr, size, order);
      order := order + 1;
    }
    if order < XLEN {
      Pow2Mono(least, order);
      AcceptsIs(addr, size, order);
      base := Block(addr, order).base;
    } else {
      base := 0;
    }
  }

  const TOP_PAGE: nat := TWO64 - 4096

  /** The last page of the address space: its own block covers it, and the whole address space is taken. */
  method TopPage() returns (base: nat, order: nat)
    ensures order == XLEN && base == 0 && Covers(TOP_PAGE, 4096, 12) && Block(TOP_PAGE, 12).base == TOP_PAGE
  {
    hide Holds, Covers, Block;
    TopPageBlock();
    base, order := MemregionInit(TOP_PAGE, 4096);
    if order < XLEN {
      TopPageHeld(order);
    }
  }

  lemma TopPageBlock()
    ensures Covers(TOP_PAGE, 4096, 12) && Block(TOP_PAGE, 12).base == TOP_PAGE
  {
    assert Pow2(2) == 4 && Pow2(4) == 16;
    Pow2Add(4, 4);
    Pow2Add(8, 4);
  }

  lemma TopPower(order: nat)
    requires order < XLEN
    ensures TWO64 == Pow2(XLEN - order) * Pow2(order)
  {
    Pow2Values();
    assert Pow2(XLEN) == 2 * Pow2(63);
    Pow2Add(XLEN - order, order);
  }

  /** The block of any order at the top of the address space ends at 2^64. */
  lemma TopPageHeld(order: nat)
    requires order < XLEN
    ensures !Holds(TOP_PAGE, 4096, order)
  {
    hide Pow2, RoundDown;
    var p := Pow2(order);
    RoundDownIs(TOP_PAGE, p);
    if 4096 <= p {
      TopPower(order);
      var q := Pow2(XLEN - order);
      assert TOP_PAGE == (q - 1) * p + (p - 4096);
      DivUnique(TOP_PAGE, p, q - 1, p - 4096);
    }
  }
}
