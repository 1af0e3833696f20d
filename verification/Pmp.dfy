/**
 Physical memory protection entries, firmware/lib/sbi/riscv_asm.c: pmp_set, pmp_get, pmp_disable and
 ctz on a 64-bit machine, over the configuration and address registers as plain storage. The encoding
 is the one of section 3.7.1 of the RISC-V Privileged Architecture.

 Registers are 64 bits; lengths and shift counts, at most 64, are kept in 8 bits. Small functions name
 the bit operations, so that the solver looks into them one at a time.
 */
module Pmp {
  const PMP_COUNT: nat := 64
  const PMP_A: bv64 := 0x18
  const PMP_A_NA4: bv64 := 0x10
  const PMP_A_NAPOT: bv64 := 0x18
  const ONES: bv64 := 0xffff_ffff_ffff_ffff

  // ctz.

  predicate Odd(x: bv64) {
    x & 1 == 1
  }

  function Half(x: bv64): bv64 {
    x >> 1
  }

  /** Bits 0 to t - 1 of x are zero. */
  predicate ZeroTo(x: bv64, t: bv8)
    requires t < 64
  {
    x & ((1 << t) - 1) == 0
  }

  function From(x: bv64, t: bv8): bv64
    requires t < 64
  {
    x >> t
  }

  /** Bit t is the lowest one bit of x. */
  predicate LowestAt(x: bv64, t: bv8) {
    t < 64 && ZeroTo(x, t) && Odd(From(x, t))
  }

  lemma NotOdd(x: bv64, s: bv8, t: bv8)
    requires s < t < 64 && ZeroTo(x, t)
    ensures !Odd(From(x, s))
  {
  }

  lemma LowestUnique(x: bv64, s: bv8, t: bv8)
    requires LowestAt(x, s) && LowestAt(x, t)
    ensures s == t
  {
    hide ZeroTo, From, Odd;
    if s < t {
      NotOdd(x, s, t);
    } else if t < s {
      NotOdd(x, t, s);
    }
  }

  lemma FromNextLow(x: bv64, t: bv8)
    requires t < 16
    ensures (x >> t) >> 1 == x >> (t + 1)
  {
  }

  lemma FromNextMiddle(x: bv64, t: bv8)
    requires 16 <= t < 32
    ensures (x >> t) >> 1 == x >> (t + 1)
  {
  }

  lemma FromNextHigh(x: bv64, t: bv8)
    requires 32 <= t < 63
    ensures (x >> t) >> 1 == x >> (t + 1)
  {
  }

  lemma FromNext(x: bv64, t: bv8)
    requires t < 63
    ensures Half(From(x, t)) == From(x, t + 1)
  {
    if t < 16 {
      FromNextLow(x, t);
    } else if t < 32 {
      FromNextMiddle(x, t);
    } else {
      FromNextHigh(x, t);
    }
  }

  lemma ZeroNext(x: bv64, t: bv8)
    requires t < 63 && ZeroTo(x, t) && !Odd(From(x, t))
    ensures ZeroTo(x, t + 1)
  {
  }

  lemma ZeroAll(x: bv64)
    requires ZeroTo(x, 63) && !Odd(From(x, 63))
    ensures x == 0
  {
  }

  lemma Start(x: bv64)
    ensures ZeroTo(x, 0) && From(x, 0) == x
  {
  }

  /** ctz: 64 for zero, otherwise the place of the lowest one bit. */
  method RunCtz(x: bv64) returns (ret: bv8)
    ensures if x == 0 then ret == 64 else LowestAt(x, ret)
  {
    hide ZeroTo, From, Odd, Half;
    ret := 0;
    if x == 0 {
      return 64;
    }
    var y := x;
    Start(x);
    while !Odd(y)
      invariant ret < 64 && ZeroTo(x, ret) && y == From(x, ret)
      decreases 63 - ret
    {
      assert ret != 63 by {
        if ret == 63 {
          ZeroAll(x);
        }
      }
      FromNext(x, ret);
      ZeroNext(x, ret);
      ret := ret + 1;
      y := Half(y);
    }
  }

  // Entry n's byte of its configuration register, k < 8.

  function Mask(k: bv64): bv64
    requires k < 8
  {
    0xff << (k << 3)
  }

  function Up(x: bv64, k: bv64): bv64
    requires k < 8
  {
    x << (k << 3)
  }

  function Down(x: bv64, k: bv64): bv64
    requires k < 8
  {
    x >> (k << 3)
  }

  function Field(x: bv64, m: bv64): bv64 {
    x & m
  }

  /** x with the bits of m taken from v. */
  function Merge(x: bv64, v: bv64, m: bv64): bv64 {
    (x & !m) | (v & m)
  }

  function ByteAt(cfg: bv64, k: bv64): bv64
    requires k < 8
  {
    Down(Field(cfg, Mask(k)), k)
  }

  function SetByte(cfg: bv64, k: bv64, prot: bv64): bv64
    requires k < 8
  {
    Merge(cfg, Up(prot, k), Mask(k))
  }

  lemma MasksApart(j: bv64, k: bv64)
    requires j < 8 && k < 8 && j != k
    ensures Field(Mask(k), Mask(j)) == 0
  {
  }

  lemma ShiftBack(prot: bv64, k: bv64)
    requires k < 8
    ensures Down(Field(Up(prot, k), Mask(k)), k) == Field(prot, 0xff)
  {
  }

  lemma MergeInside(x: bv64, v: bv64, m: bv64)
    ensures Field(Merge(x, v, m), m) == Field(v, m)
  {
  }

  lemma MergeOutside(x: bv64, v: bv64, m: bv64, t: bv64)
    requires Field(m, t) == 0
    ensures Field(Merge(x, v, m), t) == Field(x, t)
  {
  }

  lemma ByteSet(cfg: bv64, k: bv64, prot: bv64)
    requires k < 8
    ensures ByteAt(SetByte(cfg, k, prot), k) == Field(prot, 0xff)
  {
    hide Mask, Up, Down, Field, Merge;
    MergeInside(cfg, Up(prot, k), Mask(k));
    ShiftBack(prot, k);
  }

  lemma ByteKept(cfg: bv64, k: bv64, prot: bv64, j: bv64)
    requires k < 8 && j < 8 && j != k
    ensures ByteAt(SetByte(cfg, k, prot), j) == ByteAt(cfg, j)
  {
    hide Mask, Up, Down, Field, Merge;
    MasksApart(j, k);
    MergeOutside(cfg, Up(prot, k), Mask(k), Mask(j));
  }

  // The encoding.

  /** The log2len lowest bits. */
  function Low(log2len: bv8): bv64
    requires log2len < 64
  {
    (1 << log2len) - 1
  }

  predicate Aligned(addr: bv64, log2len: bv8) {
    if log2len < 64 then Field(addr, Low(log2len)) == 0 else addr == 0
  }

  function Quarter(x: bv64): bv64 {
    x >> 2
  }

  /** x without the bits of m. */
  function Cut(x: bv64, m: bv64): bv64 {
    x & !m
  }

  function With(x: bv64, y: bv64): bv64 {
    x | y
  }

  function Differ(x: bv64, y: bv64): bv64 {
    x ^ y
  }

  /** The size bits of an encoded entry of 2^log2len bytes. */
  function SizeMask(log2len: bv8): bv64
    requires 3 <= log2len < 64
  {
    (1 << (log2len - 2)) - 1
  }

  function EncodeProt(prot: bv64, log2len: bv8): bv64 {
    (prot & !PMP_A) | if log2len == 2 then PMP_A_NA4 else PMP_A_NAPOT
  }

  function EncodeAddr(addr: bv64, log2len: bv8): bv64
    requires 2 <= log2len <= 64
  {
    if log2len == 2 then Quarter(addr)
    else if log2len == 64 then ONES
    else With(Cut(Quarter(addr), SizeMask(log2len)), Half(SizeMask(log2len)))
  }

  /** The address that a NAPOT register with t trailing one bits stands for. */
  function NapotBase(pmpaddr: bv64, t: bv8): bv64
    requires t < 64
  {
    (pmpaddr & !((1 << t) - 1)) << 2
  }

  /** What pmp_get answers for a configuration byte and an address register. */
  ghost predicate Decodes(prot: bv64, pmpaddr: bv64, addr: bv64, log2len: bv8) {
    if Field(prot, PMP_A) == PMP_A_NAPOT then
      if pmpaddr == ONES then addr == 0 && log2len == 64
      else exists t: bv8 :: LowestAt(!pmpaddr, t) && addr == NapotBase(pmpaddr, t) && log2len == t + 3
    else addr == pmpaddr << 2 && log2len == 2
  }

  lemma DecodesUnique(prot: bv64, pmpaddr: bv64, addr: bv64, log2len: bv8, addr': bv64, log2len': bv8)
    requires Decodes(prot, pmpaddr, addr, log2len) && Decodes(prot, pmpaddr, addr', log2len')
    ensures addr' == addr && log2len' == log2len
  {
    hide ZeroTo, Odd, From, NapotBase, Field;
    if Field(prot, PMP_A) == PMP_A_NAPOT && pmpaddr != ONES {
      var t: bv8 :| LowestAt(!pmpaddr, t) && addr == NapotBase(pmpaddr, t) && log2len == t + 3;
      var t': bv8 :| LowestAt(!pmpaddr, t') && addr' == NapotBase(pmpaddr, t') && log2len' == t' + 3;
      LowestUnique(!pmpaddr, t, t');
    }
  }

  /** The byte that pmp_set stores: the rights and the lock as given, bits 3 and 4 by the length. */
  lemma EncodeProtIs(prot: bv64, log2len: bv8)
    ensures Field(EncodeProt(prot, log2len), 0xff) == (prot & 0xe7) | if log2len == 2 then 0x10 else 0x18
  {
  }

  lemma ModeBits(prot: bv64, log2len: bv8)
    ensures Field(Field(EncodeProt(prot, log2len), 0xff), PMP_A) == if log2len == 2 then PMP_A_NA4 else PMP_A_NAPOT
  {
  }

  lemma NapotOnes(addr: bv64, log2len: bv8)
    requires 3 <= log2len < 64 && Aligned(addr, log2len)
    ensures LowestAt(!EncodeAddr(addr, log2len), log2len - 3)
  {
  }

  lemma NapotAddr(addr: bv64, log2len: bv8)
    requires 3 <= log2len < 64 && Aligned(addr, log2len)
    ensures NapotBase(EncodeAddr(addr, log2len), log2len - 3) == addr && EncodeAddr(addr, log2len) != ONES
  {
  }

  lemma Na4Addr(addr: bv64)
    requires Aligned(addr, 2)
    ensures EncodeAddr(addr, 2) << 2 == addr
  {
  }

  lemma Lengths(log2len: bv8)
    requires 2 <= log2len <= 64 && log2len != 2 && log2len != 64
    ensures 3 <= log2len < 64 && (log2len - 3) + 3 == log2len
  {
  }

  lemma WholeAddr(addr: bv64)
    requires Aligned(addr, 64)
    ensures EncodeAddr(addr, 64) == ONES && addr == 0
  {
  }

  /** Decoding an encoded entry gives the address and the length back. */
  lemma EncodeDecode(prot: bv64, addr: bv64, log2len: bv8)
    requires 2 <= log2len <= 64 && Aligned(addr, log2len)
    ensures Decodes(Field(EncodeProt(prot, log2len), 0xff), EncodeAddr(addr, log2len), addr, log2len)
  {
    hide EncodeAddr, EncodeProt, LowestAt, Aligned, NapotBase, Field;
    ModeBits(prot, log2len);
    if log2len == 2 {
      Na4Addr(addr);
    } else if log2len == 64 {
      WholeAddr(addr);
    } else {
      Lengths(log2len);
      NapotOnes(addr, log2len);
      NapotAddr(addr, log2len);
    }
  }

  /** The aligned block of 2^log2len addresses that an address is in. */
  function Floor(addr: bv64, log2len: bv8): bv64 {
    if log2len < 64 then Cut(addr, Low(log2len)) else 0
  }

  lemma CutTwice(x: bv64, s: bv64)
    requires Quarter(Wide(s)) == s
    ensures Cut(Quarter(Cut(x, Wide(s))), s) == Cut(Quarter(x), s)
  {
    hide Cut, Quarter, Wide;
    QuarterCut(x, Wide(s));
    CutSame(Quarter(x), s);
  }

  lemma QuarterCut(x: bv64, m: bv64)
    ensures Quarter(Cut(x, m)) == Cut(Quarter(x), Quarter(m))
  {
  }

  lemma CutSame(x: bv64, m: bv64)
    ensures Cut(Cut(x, m), m) == Cut(x, m)
  {
  }

  lemma CutClears(x: bv64, m: bv64)
    ensures Field(Cut(x, m), m) == 0 && (Field(x, m) == 0 ==> Cut(x, m) == x)
  {
  }

  lemma CutTwo(x: bv64)
    ensures Quarter(Cut(x, 3)) == Quarter(x)
  {
  }

  /** The low bits of an address do not matter. */
  lemma EncodeFloor(addr: bv64, log2len: bv8)
    requires 2 <= log2len <= 64
    ensures Aligned(Floor(addr, log2len), log2len)
    ensures EncodeAddr(Floor(addr, log2len), log2len) == EncodeAddr(addr, log2len)
    ensures Aligned(addr, log2len) ==> Floor(addr, log2len) == addr
  {
    hide Low, Field, Quarter, Cut, With, SizeMask, Wide, Half;
    if log2len == 2 {
      LowTwo();
      CutTwo(addr);
      CutClears(addr, 3);
    } else if log2len < 64 {
      Lengths(log2len);
      MaskFacts(log2len);
      CutTwice(addr, SizeMask(log2len));
      CutClears(addr, Low(log2len));
    }
  }

  // What an entry protects.

  /** The low bits of a NAPOT register: its trailing ones and the zero above them. */
  function SizeBits(pmpaddr: bv64): bv64 {
    pmpaddr ^ (pmpaddr + 1)
  }

  predicate Agree(x: bv64, pmpaddr: bv64, s: bv64) {
    Cut(Differ(Quarter(x), pmpaddr), s) == 0
  }

  /** The address matching of section 3.7.1: a NAPOT entry compares the bits above its size bits, an NA4
      entry all bits, of the address without its lowest two. */
  predicate Matches(prot: bv64, pmpaddr: bv64, x: bv64) {
    if Field(prot, PMP_A) == PMP_A_NAPOT then Agree(x, pmpaddr, SizeBits(pmpaddr))
    else Field(prot, PMP_A) == PMP_A_NA4 && Quarter(x) == pmpaddr
  }

  /** x is one of the 2^log2len addresses from the aligned address addr on: it is addr but for its log2len
      lowest bits. */
  predicate InRange(addr: bv64, log2len: bv8, x: bv64) {
    log2len >= 64 || Cut(x, Low(log2len)) == addr
  }

  lemma SameQuarter(addr: bv64, x: bv64)
    requires Field(addr, 3) == 0 && Quarter(x) == Quarter(addr)
    ensures Cut(x, 3) == addr
  {
  }

  lemma QuarterSame(addr: bv64, x: bv64)
    requires Cut(x, 3) == addr
    ensures Quarter(x) == Quarter(addr)
  {
  }

  lemma LowTwo()
    ensures Low(2) == 3
  {
  }

  lemma Na4Range(addr: bv64, x: bv64)
    requires Aligned(addr, 2)
    ensures Quarter(x) == EncodeAddr(addr, 2) <==> InRange(addr, 2, x)
  {
    hide Low, Field, Quarter, Cut;
    LowTwo();
    if Quarter(x) == Quarter(addr) {
      SameQuarter(addr, x);
    } else if Cut(x, 3) == addr {
      QuarterSame(addr, x);
    }
  }

  /** The size bits, of the whole address. */
  function Wide(s: bv64): bv64 {
    (s << 2) | 3
  }

  lemma MaskFacts(log2len: bv8)
    requires 3 <= log2len < 64
    ensures var s := SizeMask(log2len); Low(log2len) == Wide(s) && Cut(Half(s), s) == 0 && Quarter(Wide(s)) == s
  {
  }

  lemma SizeBitsAre(addr: bv64, log2len: bv8)
    requires 3 <= log2len < 64 && Aligned(addr, log2len)
    ensures SizeBits(EncodeAddr(addr, log2len)) == SizeMask(log2len)
  {
  }

  lemma CutDiffer(x: bv64, y: bv64, m: bv64)
    requires Cut(x, m) == Cut(y, m)
    ensures Cut(Differ(x, y), m) == 0
  {
  }

  lemma CutWith(a: bv64, h: bv64, m: bv64)
    requires Cut(h, m) == 0 && Field(a, m) == 0
    ensures Cut(a, m) == a && Cut(With(a, h), m) == a
  {
  }

  lemma SameAbove(y: bv64, a: bv64, s: bv64, h: bv64)
    requires Cut(h, s) == 0 && Field(a, s) == 0 && Cut(Differ(y, With(Cut(a, s), h)), s) == 0
    ensures Cut(y, s) == a
  {
  }

  lemma AboveSame(y: bv64, a: bv64, s: bv64, h: bv64)
    requires Cut(h, s) == 0 && Field(a, s) == 0 && Cut(y, s) == a
    ensures Cut(Differ(y, With(Cut(a, s), h)), s) == 0
  {
    hide Cut, Field, Differ, With;
    CutWith(a, h, s);
    CutDiffer(y, With(a, h), s);
  }

  lemma ShiftDown(addr: bv64, s: bv64)
    requires Quarter(Wide(s)) == s && Field(addr, Wide(s)) == 0
    ensures Field(Quarter(addr), s) == 0
  {
  }

  lemma ShiftedSame(addr: bv64, s: bv64, x: bv64)
    requires Quarter(Wide(s)) == s && Field(addr, Wide(s)) == 0 && Cut(Quarter(x), s) == Quarter(addr)
    ensures Cut(x, Wide(s)) == addr
  {
  }

  lemma SameShifted(addr: bv64, s: bv64, x: bv64)
    requires Quarter(Wide(s)) == s && Cut(x, Wide(s)) == addr
    ensures Cut(Quarter(x), s) == Quarter(addr)
  {
  }

  lemma NapotRange(addr: bv64, log2len: bv8, x: bv64)
    requires 3 <= log2len < 64 && Aligned(addr, log2len)
    ensures Agree(x, EncodeAddr(addr, log2len), SizeMask(log2len)) <==> InRange(addr, log2len, x)
  {
    hide Low, Field, Quarter, Cut, With, Differ, SizeMask, Wide, Half;
    var s := SizeMask(log2len);
    MaskFacts(log2len);
    ShiftDown(addr, s);
    if Agree(x, EncodeAddr(addr, log2len), s) {
      SameAbove(Quarter(x), Quarter(addr), s, Half(s));
      ShiftedSame(addr, s, x);
    } else if InRange(addr, log2len, x) {
      SameShifted(addr, s, x);
      AboveSame(Quarter(x), Quarter(addr), s, Half(s));
    }
  }

  lemma OnesMatch(x: bv64)
    ensures Agree(x, ONES, SizeBits(ONES))
  {
  }

  /** An encoded entry matches exactly the addresses it is meant for, for every length from 2 to 64. */
  lemma MatchesIs(prot: bv64, addr: bv64, log2len: bv8, x: bv64)
    requires 2 <= log2len <= 64 && Aligned(addr, log2len)
    ensures Matches(Field(EncodeProt(prot, log2len), 0xff), EncodeAddr(addr, log2len), x) <==> InRange(addr, log2len, x)
  {
    hide EncodeProt, Aligned, Field, SizeBits, Agree, EncodeAddr, SizeMask, Low, Cut, Quarter;
    ModeBits(prot, log2len);
    if log2len == 2 {
      Na4Range(addr, x);
    } else if log2len == 64 {
      WholeAddr(addr);
      OnesMatch(x);
    } else {
      Lengths(log2len);
      SizeBitsAre(addr, log2len);
      NapotRange(addr, log2len, x);
    }
  }

  /** Byte j of a register: its bits 8 j to 8 j + 7. */
  function Octet(x: bv64, j: nat): bv64 {
    match j
    case 0 => x & 0xff
    case 1 => (x >> 8) & 0xff
    case 2 => (x >> 16) & 0xff
    case 3 => (x >> 24) & 0xff
    case 4 => (x >> 32) & 0xff
    case 5 => (x >> 40) & 0xff
    case 6 => (x >> 48) & 0xff
    case _ => x >> 56
  }

  lemma ByteIsOctet(x: bv64, n: nat)
    ensures Place(n) < 8 && ByteAt(x, Place(n)) == Octet(x, n % 8)
  {
    hide ByteAt;
    match n % 8
    case 0 => Octet0(x);
    case 1 => Octet1(x);
    case 2 => Octet2(x);
    case 3 => Octet3(x);
    case 4 => Octet4(x);
    case 5 => Octet5(x);
    case 6 => Octet6(x);
    case _ => Octet7(x);
  }

  lemma Octet0(x: bv64)
    ensures ByteAt(x, 0) == x & 0xff
  {
  }

  lemma Octet1(x: bv64)
    ensures ByteAt(x, 1) == (x >> 8) & 0xff
  {
  }

  lemma Octet2(x: bv64)
    ensures ByteAt(x, 2) == (x >> 16) & 0xff
  {
  }

  lemma Octet3(x: bv64)
    ensures ByteAt(x, 3) == (x >> 24) & 0xff
  {
  }

  lemma Octet4(x: bv64)
    ensures ByteAt(x, 4) == (x >> 32) & 0xff
  {
  }

  lemma Octet5(x: bv64)
    ensures ByteAt(x, 5) == (x >> 40) & 0xff
  {
  }

  lemma Octet6(x: bv64)
    ensures ByteAt(x, 6) == (x >> 48) & 0xff
  {
  }

  lemma Octet7(x: bv64)
    ensures ByteAt(x, 7) == x >> 56
  {
  }

  /** (n >> 2) & ~1 */
  function Index(n: nat): nat {
    n / 4 - n / 4 % 2
  }

  lemma IndexIs(n: nat)
    ensures Index(n) == 2 * (n / 8)
  {
  }

  class Registers {
    /** pmpcfg0 to pmpcfg15, of which a 64-bit machine has the even ones, and pmpaddr0 to pmpaddr63. */
    var cfg: seq<bv64>
    var addr: seq<bv64>

    predicate Valid()
      reads this
    {
      |cfg| == 16 && |addr| == PMP_COUNT
    }

    constructor ()
      ensures Valid()
    {
      cfg := seq(16, i => 0);
      addr := seq(PMP_COUNT, i => 0);
    }

    /** Entry n's configuration byte: byte n % 8 of pmpcfg 2 * (n / 8). */
    function Prot(n: nat): bv64
      requires Valid() && n < PMP_COUNT
      reads this
    {
      Octet(cfg[2 * (n / 8)], n % 8)
    }

    /** What pmp_get would answer for entry n. */
    ghost predicate Entry(n: nat, prot: bv64, a: bv64, log2len: bv8)
      requires Valid() && n < PMP_COUNT
      reads this
    {
      prot == Prot(n) && Decodes(prot, addr[n], a, log2len)
    }

    /** The byte of entry n is written, and no other. */
    method SetProt(n: nat, prot: bv64)
      requires Valid() && n < PMP_COUNT
      modifies `cfg
      ensures Valid() && Prot(n) == Field(prot, 0xff)
      ensures forall m: nat | m < PMP_COUNT && m != n :: Prot(m) == old(Prot(m))
      ensures forall k: nat | k < 16 && k != 2 * (n / 8) :: cfg[k] == old(cfg[k])
    {
      hide ByteAt, SetByte, Field, Place, Octet, Index;
      IndexIs(n);
      ghost var was := cfg[Index(n)];
      PlaceIs(n);
      cfg := cfg[Index(n) := SetByte(cfg[Index(n)], Place(n), prot)];
      ByteSet(was, Place(n), prot);
      ByteIsOctet(cfg[Index(n)], n);
      forall m: nat | m < PMP_COUNT && m != n ensures Prot(m) == old(Prot(m)) {
        if m / 8 == n / 8 {
          PlacesApart(m, n);
          PlaceIs(m);
          ByteKept(was, Place(n), prot, Place(m));
          ByteIsOctet(was, m);
          ByteIsOctet(cfg[Index(n)], m);
        }
      }
    }

    /** pmp_set: false stands for SBI_EINVAL. The entry protects the aligned block that the address is in, with the
        rights and the lock that are given. */
    method Set(n: nat, prot: bv64, a: bv64, log2len: bv8) returns (ok: bool)
      requires Valid()
      modifies this
      ensures Valid() && (ok <==> n < PMP_COUNT && 2 <= log2len <= 64) && (!ok ==> unchanged(this))
      ensures ok ==>
        Entry(n, (prot & 0xe7) | if log2len == 2 then 0x10 else 0x18, Floor(a, log2len), log2len)
      ensures ok ==> forall x :: Matches(Prot(n), addr[n], x) <==> InRange(Floor(a, log2len), log2len, x)
      ensures Aligned(a, log2len) && ok ==> Floor(a, log2len) == a
      ensures forall m: nat | ok && m < PMP_COUNT && m != n :: Prot(m) == old(Prot(m)) && addr[m] == old(addr[m])
      ensures forall k: nat | ok && k < 16 && k != 2 * (n / 8) :: cfg[k] == old(cfg[k])
    {
      hide EncodeProt, EncodeAddr, Aligned, Decodes, Field, Matches, InRange, Floor, Octet;
      ok := n < PMP_COUNT && 2 <= log2len <= 64;
      if ok {
        var p := EncodeProt(prot, log2len);
        addr := addr[n := EncodeAddr(a, log2len)];
        SetProt(n, p);
        EncodeProtIs(prot, log2len);
        EncodeFloor(a, log2len);
        EncodeDecode(prot, Floor(a, log2len), log2len);
        forall x ensures Matches(Prot(n), addr[n], x) <==> InRange(Floor(a, log2len), log2len, x) {
          MatchesIs(prot, Floor(a, log2len), log2len, x);
        }
      }
    }

    /** pmp_get */
    method Get(n: nat) returns (ok: bool, prot: bv64, a: bv64, log2len: bv8)
      requires Valid()
      ensures ok <==> n < PMP_COUNT
      ensures ok ==> Entry(n, prot, a, log2len)
    {
      hide ByteAt, Decodes, Place, Octet, Index;
      ok, prot, a, log2len := n < PMP_COUNT, 0, 0, 0;
      if ok {
        IndexIs(n);
        ByteIsOctet(cfg[Index(n)], n);
        prot := ByteAt(cfg[Index(n)], Place(n));
        a, log2len := RunDecode(prot, addr[n]);
      }
    }

    /** An entry reads back one way only: what pmp_get returns is what pmp_set was given. */
    lemma EntryUnique(n: nat, prot: bv64, a: bv64, log2len: bv8, prot': bv64, a': bv64, log2len': bv8)
      requires Valid() && n < PMP_COUNT && Entry(n, prot, a, log2len) && Entry(n, prot', a', log2len')
      ensures prot' == prot && a' == a && log2len' == log2len
    {
      hide Decodes;
      DecodesUnique(prot, addr[n], a, log2len, a', log2len');
    }

    /** pmp_disable: clears the whole byte, which turns address matching off. */
    method Disable(n: nat) returns (ok: bool)
      requires Valid()
      modifies this
      ensures Valid() && (ok <==> n < PMP_COUNT) && (!ok ==> unchanged(this)) && addr == old(addr)
      ensures ok ==> Prot(n) == 0 && Field(Prot(n), PMP_A) == 0 && forall x :: !Matches(Prot(n), addr[n], x)
      ensures forall m: nat | ok && m < PMP_COUNT && m != n :: Prot(m) == old(Prot(m))
    {
      hide Field, Octet;
      ok := n < PMP_COUNT;
      if ok {
        SetProt(n, 0);
        Cleared();
      }
    }
  }

  /** The second half of pmp_get. */
  method RunDecode(prot: bv64, pmpaddr: bv64) returns (a: bv64, log2len: bv8)
    ensures Decodes(prot, pmpaddr, a, log2len)
  {
    hide LowestAt, NapotBase, Field, Decodes, Quadruple;
    if Field(prot, PMP_A) == PMP_A_NAPOT {
      if pmpaddr == ONES {
        a, log2len := 0, 64;
        DecodesOnes(prot);
      } else {
        NotOnes(pmpaddr);
        var t := RunCtz(Not(pmpaddr));
        DecodesNapot(prot, pmpaddr, t);
        a, log2len := NapotBase(pmpaddr, t), t + 3;
      }
    } else {
      a, log2len := Quadruple(pmpaddr), 2;
      DecodesOther(prot, pmpaddr);
    }
  }

  function Not(x: bv64): bv64 {
    !x
  }

  function Quadruple(x: bv64): bv64 {
    x << 2
  }

  lemma DecodesOnes(prot: bv64)
    requires Field(prot, PMP_A) == PMP_A_NAPOT
    ensures Decodes(prot, ONES, 0, 64)
  {
  }

  lemma DecodesNapot(prot: bv64, pmpaddr: bv64, t: bv8)
    requires Field(prot, PMP_A) == PMP_A_NAPOT && pmpaddr != ONES && LowestAt(Not(pmpaddr), t)
    ensures t < 64 && Decodes(prot, pmpaddr, NapotBase(pmpaddr, t), t + 3)
  {
    hide ZeroTo, From, Odd, NapotBase, Field;
  }

  lemma DecodesOther(prot: bv64, pmpaddr: bv64)
    requires Field(prot, PMP_A) != PMP_A_NAPOT
    ensures Decodes(prot, pmpaddr, Quadruple(pmpaddr), 2)
  {
    hide Field;
  }

  lemma NotOnes(x: bv64)
    requires x != ONES
    ensures Not(x) != 0
  {
  }

  lemma Cleared()
    ensures Field(0, 0xff) == 0 && Field(0, PMP_A) == 0
  {
  }

  /** n & 7 */
  function Place(n: nat): bv64
    ensures Place(n) < 8
  {
    match n % 8
    case 0 => 0
    case 1 => 1
    case 2 => 2
    case 3 => 3
    case 4 => 4
    case 5 => 5
    case 6 => 6
    case _ => 7
  }

  lemma PlaceIs(n: nat)
    ensures Place(n) < 8
  {
  }

  lemma PlacesApart(m: nat, n: nat)
    requires m != n && m / 8 == n / 8
    ensures Place(m) != Place(n)
  {
  }
}
