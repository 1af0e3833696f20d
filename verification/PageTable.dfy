/**
 Sv39 page tables and the page allocator: kernel/vm.c and kernel/kalloc.c.

 Physical memory is a map from page number to page. A page holds bytes, or the 512 entries of a
 page-table page. A virtual address is its page number `vpn` and its offset; a user address is below
 MAXVA. The tree has levels 2 (the root), 1 and 0; its meaning is the flat map Leaf.

 The ghost map `owner` says what every page of RAM is for: on the free list, a table of one page
 table at one place, the frame behind one leaf entry, or in the kernel's hands. Being a map, it says
 that each page is owned once.
 */
module PageTable {
  import opened Common

  const ENTRIES: nat := 512
  const PGSIZE: nat := 4096
  /** The page number of MAXVA, 1 << 38. */
  const MAXVPN: nat := 0x400_0000

  /** A page-table entry: the flags V R W X U, the five flags above them, and the page number. */
  datatype Pte = Pte(v: bool, r: bool, w: bool, x: bool, u: bool, rest: nat, ppn: nat)

  const ZERO := Pte(false, false, false, false, false, 0, 0)

  function Pointer(p: nat): Pte {
    Pte(true, false, false, false, false, 0, p)
  }

  predicate IsLeaf(e: Pte) {
    e.r || e.w || e.x
  }

  datatype Page = Data(bytes: seq<nat>) | Table(entries: seq<Pte>)

  type Pages = map<nat, Page>

  /** A table's place: the page table it belongs to, its level, and the part of the virtual page
      number above that level; `up` is the table that points to it. */
  datatype Owner =
    | Free
    | Kernel
    | Tree(root: nat, level: nat, key: nat, up: nat)
    | Frame(root: nat, vpn: nat, table: nat)

  type Owners = map<nat, Owner>

  predicate IsTable(pages: Pages, p: nat) {
    p in pages && pages[p].Table? && |pages[p].entries| == ENTRIES
  }

  predicate IsData(pages: Pages, p: nat) {
    p in pages && pages[p].Data? && |pages[p].bytes| == PGSIZE
  }

  /** Entry i of table p. */
  function Entry(pages: Pages, p: nat, i: nat): Pte {
    if IsTable(pages, p) && i < ENTRIES then pages[p].entries[i] else ZERO
  }

  // The flat map that a tree denotes.

  function Level1(pages: Pages, root: nat, vpn: nat): Option<nat> {
    var e := Entry(pages, root, vpn / ENTRIES / ENTRIES % ENTRIES);
    if e.v then Some(e.ppn) else None
  }

  function Level0(pages: Pages, root: nat, vpn: nat): Option<nat> {
    match Level1(pages, root, vpn)
    case None => None
    case Some(t) =>
      var e := Entry(pages, t, vpn / ENTRIES % ENTRIES);
      if e.v then Some(e.ppn) else None
  }

  function Leaf(pages: Pages, root: nat, vpn: nat): Pte {
    match Level0(pages, root, vpn)
    case None => ZERO
    case Some(t) => Entry(pages, t, vpn % ENTRIES)
  }

  /** Section 4.4.1 of the RISC-V Privileged Architecture: the upper, the middle and the lower nine bits of the page
      number choose the entries of the three tables. */
  lemma Sv39(pages: Pages, root: nat, vpn: nat)
    requires vpn < MAXVPN
    ensures var a := Entry(pages, root, vpn / 0x4_0000); var b := Entry(pages, a.ppn, vpn / 0x200 % 0x200);
      Leaf(pages, root, vpn) == if a.v && b.v then Entry(pages, b.ppn, vpn % 0x200) else ZERO
  {
    assert vpn / 0x200 / 0x200 % 0x200 == vpn / 0x4_0000;
  }

  // Ownership.

  predicate InTree(owner: Owners, p: nat, root: nat, level: nat, key: nat) {
    p in owner && owner[p].Tree? && owner[p].root == root && owner[p].level == level && owner[p].key == key
  }

  /** Entry i of table p, at the given place, points to the table below it or is a leaf. */
  predicate EntryOk(pages: Pages, owner: Owners, p: nat, i: nat, o: Owner)
    requires o.Tree?
  {
    var e := Entry(pages, p, i);
    if !e.v then e == ZERO
    else if o.level == 0 then IsLeaf(e)
    else e == Pointer(e.ppn) && InTree(owner, e.ppn, o.root, o.level - 1, o.key * ENTRIES + i)
  }

  /** The places that virtual pages below MAXVPN use. */
  predicate KeyOk(level: nat, key: nat) {
    key * ENTRIES < if level == 0 then MAXVPN else if level == 1 then MAXVPN / ENTRIES else ENTRIES
  }

  /** A table is pointed to by the right entry of the table above it. */
  predicate UpOk(pages: Pages, owner: Owners, p: nat, o: Owner)
    requires o.Tree?
  {
    && o.level <= 2 && KeyOk(o.level, o.key)
    && if o.level == 2 then p == o.root
       else
         && InTree(owner, o.up, o.root, o.level + 1, o.key / ENTRIES)
         && Entry(pages, o.up, o.key % ENTRIES) == Pointer(p)
  }

  ghost predicate PageOk(pages: Pages, owner: Owners, p: nat, o: Owner) {
    match o
    case Free => true
    case Kernel => true
    case Tree(_, _, _, _) => IsTable(pages, p) && UpOk(pages, owner, p, o) && forall i: nat | i < ENTRIES ::
      EntryOk(pages, owner, p, i, o)
    case Frame(root, vpn, t) =>
      && IsData(pages, p) && InTree(owner, t, root, 0, vpn / ENTRIES)
      && Entry(pages, t, vpn % ENTRIES).v && Entry(pages, t, vpn % ENTRIES).ppn == p
  }

  ghost predicate TreesOk(pages: Pages, owner: Owners) {
    owner.Keys == pages.Keys && forall p | p in owner :: PageOk(pages, owner, p, owner[p])
  }

  /** The tables that a walk passes are at the places it looks for. */
  lemma PathOk(pages: Pages, owner: Owners, root: nat, vpn: nat)
    requires TreesOk(pages, owner) && InTree(owner, root, root, 2, 0) && vpn < MAXVPN
    ensures Level1(pages, root, vpn).Some? ==>
      InTree(owner, Level1(pages, root, vpn).value, root, 1, vpn / ENTRIES / ENTRIES)
    ensures Level0(pages, root, vpn).Some? ==> InTree(owner, Level0(pages, root, vpn).value, root, 0, vpn / ENTRIES)
  {
    var h, g := vpn / ENTRIES / ENTRIES, vpn / ENTRIES;
    assert PageOk(pages, owner, root, owner[root]);
    assert EntryOk(pages, owner, root, h, owner[root]);
    match Level1(pages, root, vpn)
    case None =>
    case Some(t) =>
      assert PageOk(pages, owner, t, owner[t]);
      assert EntryOk(pages, owner, t, g % ENTRIES, owner[t]);
      assert h * ENTRIES + g % ENTRIES == g;
  }

  predicate IsRoot(owner: Owners, root: nat) {
    InTree(owner, root, root, 2, 0)
  }

  function SetEntry(pages: Pages, t: nat, i: nat, e: Pte): Pages
    requires IsTable(pages, t) && i < ENTRIES
  {
    pages[t := Table(pages[t].entries[i := e])]
  }

  /** No frame is recorded behind entry i of table t. */
  ghost predicate NoFrame(owner: Owners, t: nat, i: nat) {
    forall p | p in owner && owner[p].Frame? && owner[p].table == t :: owner[p].vpn % ENTRIES != i
  }

  /** A leaf entry may be stored at level 0 where no frame is recorded. */
  lemma SetLeafOk(pages: Pages, owner: Owners, t: nat, i: nat, e: Pte)
    requires TreesOk(pages, owner) && t in owner && owner[t].Tree? && owner[t].level == 0
    requires i < ENTRIES && (if e.v then IsLeaf(e) else e == ZERO) && NoFrame(owner, t, i)
    ensures IsTable(pages, t) && TreesOk(SetEntry(pages, t, i, e), owner)
  {
    assert PageOk(pages, owner, t, owner[t]);
    var pages' := SetEntry(pages, t, i, e);
    forall p | p in owner ensures PageOk(pages', owner, p, owner[p]) {
      assert PageOk(pages, owner, p, owner[p]);
      if owner[p].Tree? {
        forall j: nat | j < ENTRIES ensures EntryOk(pages', owner, p, j, owner[p]) {
          assert EntryOk(pages, owner, p, j, owner[p]);
        }
      }
    }
  }

  /** It changes the meaning of one virtual page of one page table. */
  lemma SetLeafAt(pages: Pages, owner: Owners, root: nat, vpn: nat, t: nat, e: Pte, root': nat, vpn': nat)
    requires TreesOk(pages, owner) && IsRoot(owner, root) && IsRoot(owner, root') && vpn < MAXVPN && vpn' < MAXVPN
    requires Level0(pages, root, vpn) == Some(t)
    ensures IsTable(pages, t)
    ensures var pages' := SetEntry(pages, t, vpn % ENTRIES, e);
      && Level0(pages', root', vpn') == Level0(pages, root', vpn')
      && Leaf(pages', root', vpn') == if root' == root && vpn' == vpn then e else Leaf(pages, root', vpn')
  {
    PathOk(pages, owner, root, vpn);
    PathOk(pages, owner, root', vpn');
    assert PageOk(pages, owner, t, owner[t]);
  }

  /** A page that is neither a table nor a frame may change hands and content. */
  lemma RetagOk(pages: Pages, owner: Owners, p: nat, page: Page, o: Owner)
    requires TreesOk(pages, owner) && p in owner && !owner[p].Tree? && (o.Free? || o.Kernel?)
    ensures TreesOk(pages[p := page], owner[p := o])
  {
    var pages', owner' := pages[p := page], owner[p := o];
    forall q | q in owner' && q != p ensures PageOk(pages', owner', q, owner'[q]) {
      assert PageOk(pages, owner, q, owner[q]);
      if owner[q].Tree? {
        forall j: nat | j < ENTRIES ensures EntryOk(pages', owner', q, j, owner[q]) {
          assert EntryOk(pages, owner, q, j, owner[q]);
        }
      }
    }
  }

  lemma RetagLeaf(pages: Pages, owner: Owners, p: nat, page: Page, root: nat, vpn: nat)
    requires TreesOk(pages, owner) && p in owner && !owner[p].Tree? && IsRoot(owner, root) && vpn < MAXVPN
    ensures Level0(pages[p := page], root, vpn) == Level0(pages, root, vpn)
    ensures Leaf(pages[p := page], root, vpn) == Leaf(pages, root, vpn)
  {
    PathOk(pages, owner, root, vpn);
  }

  /** A page in the kernel's hands becomes the frame behind the leaf that points to it. */
  lemma OwnFrameOk(pages: Pages, owner: Owners, root: nat, vpn: nat, t: nat, p: nat)
    requires TreesOk(pages, owner) && p in owner && owner[p] == Kernel && IsData(pages, p)
    requires InTree(owner, t, root, 0, vpn / ENTRIES) && Entry(pages, t, vpn % ENTRIES).v
    requires Entry(pages, t, vpn % ENTRIES).ppn == p
    ensures TreesOk(pages, owner[p := Frame(root, vpn, t)])
  {
    var owner' := owner[p := Frame(root, vpn, t)];
    forall q | q in owner' && q != p ensures PageOk(pages, owner', q, owner'[q]) {
      assert PageOk(pages, owner, q, owner[q]);
      if owner[q].Tree? {
        forall j: nat | j < ENTRIES ensures EntryOk(pages, owner', q, j, owner[q]) {
          assert EntryOk(pages, owner, q, j, owner[q]);
        }
      }
    }
  }

  function Link(pages: Pages, q: nat, i: nat, p: nat): Pages
    requires IsTable(pages, q) && i < ENTRIES && p != q
  {
    SetEntry(pages[p := Table(Repeat(ZERO, ENTRIES))], q, i, Pointer(p))
  }

  /** walk hangs a cleared page under entry i of table q. */
  lemma LinkOk(pages: Pages, owner: Owners, q: nat, i: nat, p: nat)
    requires TreesOk(pages, owner) && p in owner && owner[p] == Kernel && i < ENTRIES
    requires q in owner && owner[q].Tree? && owner[q].level > 0 && !Entry(pages, q, i).v
    requires KeyOk(owner[q].level - 1, owner[q].key * ENTRIES + i)
    ensures IsTable(pages, q) && p != q
    ensures var o := owner[q];
      TreesOk(Link(pages, q, i, p), owner[p := Tree(o.root, o.level - 1, o.key * ENTRIES + i, q)])
  {
    hide PageOk;
    TableAt(pages, owner, q);
    var o := owner[q];
    var pages', owner' := Link(pages, q, i, p), owner[p := Tree(o.root, o.level - 1, o.key * ENTRIES + i, q)];
    LinkNew(pages, owner, q, i, p);
    forall x | x in owner' ensures PageOk(pages', owner', x, owner'[x]) {
      if x != p {
        LinkKeeps(pages, owner, q, i, p, x);
      }
    }
  }

  lemma TableAt(pages: Pages, owner: Owners, q: nat)
    requires TreesOk(pages, owner) && q in owner && owner[q].Tree?
    ensures IsTable(pages, q) && owner[q].level <= 2
  {
    assert PageOk(pages, owner, q, owner[q]);
  }

  lemma LinkNew(pages: Pages, owner: Owners, q: nat, i: nat, p: nat)
    requires p in owner && owner[p] == Kernel && i < ENTRIES && IsTable(pages, q)
    requires q in owner && owner[q].Tree? && 0 < owner[q].level <= 2
    requires KeyOk(owner[q].level - 1, owner[q].key * ENTRIES + i)
    ensures var o := Tree(owner[q].root, owner[q].level - 1, owner[q].key * ENTRIES + i, q);
      PageOk(Link(pages, q, i, p), owner[p := o], p, o)
  {
  }

  lemma LinkKeeps(pages: Pages, owner: Owners, q: nat, i: nat, p: nat, x: nat)
    requires TreesOk(pages, owner) && p in owner && owner[p] == Kernel && i < ENTRIES && x in owner && x != p
    requires IsTable(pages, q)
    requires q in owner && owner[q].Tree? && owner[q].level > 0 && !Entry(pages, q, i).v
    ensures var o := Tree(owner[q].root, owner[q].level - 1, owner[q].key * ENTRIES + i, q);
      PageOk(Link(pages, q, i, p), owner[p := o], x, owner[x])
  {
    hide EntryOk;
    assert PageOk(pages, owner, x, owner[x]);
    var o := Tree(owner[q].root, owner[q].level - 1, owner[q].key * ENTRIES + i, q);
    var pages', owner' := Link(pages, q, i, p), owner[p := o];
    if owner[x].Tree? {
      forall j: nat | j < ENTRIES ensures EntryOk(pages', owner', x, j, owner[x]) {
        LinkEntry(pages, owner, q, i, p, x, j);
      }
    }
  }

  lemma LinkEntry(pages: Pages, owner: Owners, q: nat, i: nat, p: nat, x: nat, j: nat)
    requires p in owner && owner[p] == Kernel && i < ENTRIES && x in owner && x != p && IsTable(pages, q) && p != q
    requires q in owner && owner[q].Tree? && owner[q].level > 0 && !Entry(pages, q, i).v
    requires owner[x].Tree? && j < ENTRIES && EntryOk(pages, owner, x, j, owner[x])
    ensures var o := Tree(owner[q].root, owner[q].level - 1, owner[q].key * ENTRIES + i, q);
      EntryOk(Link(pages, q, i, p), owner[p := o], x, j, owner[x])
  {
  }

  lemma LinkLeaf(pages: Pages, owner: Owners, q: nat, i: nat, p: nat, root: nat, vpn: nat)
    requires TreesOk(pages, owner) && p in owner && owner[p] == Kernel && i < ENTRIES && IsRoot(owner, root)
    requires vpn < MAXVPN
    requires q in owner && owner[q].Tree? && owner[q].level > 0 && IsTable(pages, q) && !Entry(pages, q, i).v
    ensures Leaf(Link(pages, q, i, p), root, vpn) == Leaf(pages, root, vpn)
  {
    PathOk(pages, owner, root, vpn);
  }

  // The free list.

  ghost predicate NoDup(s: seq<nat>) {
    forall i, j | 0 <= i < j < |s| :: s[i] != s[j]
  }

  ghost predicate FreeOk(free: seq<nat>, owner: Owners) {
    NoDup(free) && (forall p :: p in free <==> p in owner && owner[p].Free?)
  }

  ghost predicate MemOk(pages: Pages, free: seq<nat>, owner: Owners) {
    TreesOk(pages, owner) && FreeOk(free, owner)
  }

  /** Between the two states the page tables mean the same, but for `change` in the one at root. */
  ghost predicate Remap(owner: Owners, root: nat, before: Pages, after: Pages, change: map<nat, Pte>) {
    forall r, v: nat | IsRoot(owner, r) && v < MAXVPN ::
      Leaf(after, r, v) == if r == root && v in change then change[v] else Leaf(before, r, v)
  }

  /** Pages have gone from the free list's front to the tables of root; nothing else has moved, and
      no byte of any other page has changed. */
  ghost predicate Grew(root: nat, pages: Pages, free: seq<nat>, owner: Owners, pages': Pages, free': seq<nat>,
      owner': Owners) {
    && owner'.Keys == owner.Keys && |free'| <= |free| && free' == free[|free| - |free'|..]
    && (forall p | p in owner ::
      owner'[p] == owner[p] || (owner[p].Free? && owner'[p].Tree? && owner'[p].root == root && owner'[p].level < 2))
    && (forall p | p in pages && p in owner && p in owner' && owner'[p] == owner[p] && !owner[p].Tree? ::
      p in pages' && pages'[p] == pages[p])
  }

  /** At first the kernel has all of RAM. */
  lemma AllKernel(pages: Pages, owner: Owners)
    requires owner.Keys == pages.Keys && forall p | p in owner :: owner[p] == Kernel
    ensures MemOk(pages, [], owner)
  {
  }

  class Memory {
    var pages: Pages
    var free: seq<nat>
    ghost var owner: Owners

    ghost predicate Valid()
      reads this
    {
      MemOk(pages, free, owner)
    }

    /** kinit: every whole page from the end of the kernel to the end of RAM is put on the free list.
        The pages of RAM are those that kfree accepts. */
    constructor (ram: Pages, end: nat, ramEnd: nat)
      requires forall p :: p in ram <==> end <= p * PGSIZE < ramEnd
      ensures Valid() && owner.Keys == ram.Keys && pages.Keys == ram.Keys
      ensures forall p | p in owner :: owner[p] == if (p + 1) * PGSIZE <= ramEnd then Free else Kernel
      ensures forall i | 0 < i < |free| :: free[i - 1] == free[i] + 1
    {
      hide TreesOk, FreeOk, Fill;
      pages, free, owner := ram, [], map p | p in ram :: Kernel;
      new;
      AllKernel(pages, owner);
      var p := PagesFor(end);
      while (p + 1) * PGSIZE <= ramEnd
        invariant PagesFor(end) <= p && Valid() && owner.Keys == ram.Keys && pages.Keys == ram.Keys
        invariant forall q | q in owner :: owner[q] == if q < p then Free else Kernel
        invariant p == PagesFor(end) || (p - 1) * PGSIZE + PGSIZE <= ramEnd
        invariant free != [] ==> free[0] == p - 1
        invariant forall i | 0 < i < |free| :: free[i - 1] == free[i] + 1
      {
        var ok := Kfree(p);
        p := p + 1;
      }
    }

    /** kalloc: the head of the free list, filled with junk. */
    method Kalloc() returns (p: Option<nat>)
      requires Valid()
      modifies this
      ensures Valid()
      ensures p.None? ==> old(free) == [] && unchanged(this)
      ensures p.Some? ==>
        old(free) == [p.value] + free && owner == old(owner)[p.value := Kernel] && p.value in old(owner) &&
        old(owner)[p.value] == Free
      ensures p.Some? ==> pages == old(pages)[p.value := Data(Fill(5))]
    {
      hide TreesOk, Fill;
      if free == [] {
        return None;
      }
      p := Some(free[0]);
      PopOk(free, owner);
      RetagOk(pages, owner, p.value, Data(Fill(5)), Kernel);
      free, pages, owner := free[1..], pages[p.value := Data(Fill(5))], owner[p.value := Kernel];
    }

    /** kfree: fails outside RAM, otherwise fills the page with junk and puts it in front. */
    method Kfree(p: nat) returns (ok: bool)
      requires Valid() && (p in owner ==> owner[p].Kernel? || owner[p].Frame?)
      modifies this
      ensures Valid()
      ensures ok <==> p in old(pages)
      ensures !ok ==> unchanged(this)
      ensures ok ==>
        free == [p] + old(free) && owner == old(owner)[p := Free] && pages == old(pages)[p := Data(Fill(1))]
    {
      hide Fill;
      if p in pages {
        PushOk(free, owner, p);
        RetagOk(pages, owner, p, Data(Fill(1)), Free);
        owner := owner[p := Free];
      }
      ok := Push(p);
    }

    /** What kfree does to memory. */
    method Push(p: nat) returns (ok: bool)
      modifies `pages, `free
      ensures ok <==> p in old(pages)
      ensures if ok then free == [p] + old(free) && pages == old(pages)[p := Data(Fill(1))]
        else free == old(free) && pages == old(pages)
    {
      ok := p in pages;
      if ok {
        free, pages := [p] + free, pages[p := Data(Fill(1))];
      }
    }

    /** uvmcreate: a new, empty page table. */
    method UvmCreate() returns (root: Option<nat>)
      requires Valid()
      modifies this
      ensures Valid()
      ensures root.None? ==> old(free) == [] && unchanged(this)
      ensures root.Some? ==>
        IsRoot(owner, root.value) && (forall v: nat | v < MAXVPN :: Leaf(pages, root.value, v) == ZERO)
      ensures root.Some? ==>
        owner == old(owner)[root.value := Tree(root.value, 2, 0, root.value)] &&
        SameLeaves(old(owner), old(pages), pages)
      ensures root.Some? ==>
        root.value in old(owner) && old(owner)[root.value] == Free && Kept(old(pages), old(owner), pages, owner)
      ensures root.Some? ==> |old(free)| == |free| + 1
    {
      hide TreesOk, Fill, Repeat, Leaf, SameLeaves;
      root := Kalloc();
      if root.Some? {
        NewRoot(old(pages), old(owner), pages, free, owner, root.value);
        pages, owner := pages[root.value := Table(Repeat(ZERO, ENTRIES))],
            owner[root.value := Tree(root.value, 2, 0, root.value)];
      }
    }

    /** One level of walk: follow entry i of table q, or hang a new table under it. */
    method Descend(q: nat, i: nat, alloc: bool) returns (t: Option<nat>)
      requires Valid() && i < ENTRIES && q in owner && owner[q].Tree? && owner[q].level > 0
      requires KeyOk(owner[q].level - 1, owner[q].key * ENTRIES + i)
      modifies this
      ensures Valid() && Grew(old(owner)[q].root, old(pages), old(free), old(owner), pages, free, owner)
      ensures SameLeaves(old(owner), old(pages), pages)
      ensures var o := old(owner)[q];
        t.Some? ==>
          Entry(pages, q, i) == Pointer(t.value) && InTree(owner, t.value, o.root, o.level - 1, o.key * ENTRIES + i)
      ensures t.None? ==> unchanged(this) && !Entry(pages, q, i).v && (alloc ==> free == [])
      ensures |old(free)| <= |free| + 1
      ensures !alloc ==> unchanged(this)
      ensures forall x, j | x in old(owner) && old(owner)[x].Tree? && (x != q || j != i) ::
        Entry(pages, x, j) == Entry(old(pages), x, j)
      ensures Entry(old(pages), q, i).v ==> unchanged(this)
    {
      hide TreesOk, FreeOk, Fill, Repeat;
      EntryFacts(pages, owner, q, i);
      GrewRefl(owner[q].root, pages, free, owner);
      t := None;
      if Entry(pages, q, i).v {
        t := Some(Entry(pages, q, i).ppn);
      } else if alloc {
        ghost var pages0, free0, owner0 := pages, free, owner;
        t := Kalloc();
        if t.Some? {
          pages := Link(pages, q, i, t.value);
          owner := owner[t.value := Tree(owner[q].root, owner[q].level - 1, owner[q].key * ENTRIES + i, q)];
          Descended(pages0, free0, owner0, q, i, t.value, free);
        }
      }
    }

    /** walk: the level-0 table for vpn, building the missing tables if asked to. */
    method Walk(root: nat, vpn: nat, alloc: bool) returns (t: Option<nat>)
      requires Valid() && IsRoot(owner, root) && vpn < MAXVPN
      modifies this
      ensures Valid() && Grew(root, old(pages), old(free), old(owner), pages, free, owner)
      ensures SameLeaves(old(owner), old(pages), pages)
      ensures t == Level0(pages, root, vpn) && (t.Some? ==> InTree(owner, t.value, root, 0, vpn / ENTRIES))
      ensures t.None? && alloc ==> free == [] && |old(free)| < 2
      ensures !alloc ==> unchanged(this)
      ensures |old(free)| <= |free| + 2
    {
      hide MemOk, Grew, SameLeaves, Index, Level0, Level1;
      GrewRefl(root, pages, free, owner);
      var level := 2;
      t := Some(root);
      while level > 0 && t.Some?
        invariant 0 <= level <= 2 && Valid() && IsRoot(owner, root) && (!alloc ==> unchanged(this))
        invariant Grew(root, old(pages), old(free), old(owner), pages, free, owner)
        invariant SameLeaves(old(owner), old(pages), pages)
        invariant t == Node(pages, root, vpn, level)
        invariant t.Some? ==> InTree(owner, t.value, root, level, Key(vpn, level))
        invariant t.None? ==> Level0(pages, root, vpn) == None && (alloc ==> free == [] && |old(free)| < 2)
        invariant |old(free)| <= |free| + (2 - level)
        invariant level == 0 ==> t == Level0(pages, root, vpn)
        decreases level
      {
        ghost var pages1, free1, owner1 := pages, free, owner;
        ghost var up := t.value;
        KeyBelow(vpn, level);
        t := Descend(t.value, Index(vpn, level), alloc);
        GrewTrans(root, old(pages), old(free), old(owner), pages1, free1, owner1, pages, free, owner);
        StepDown(pages1, pages, owner1, root, vpn, level, up, t);
        level := level - 1;
      }
    }

    /** One turn of the loop of mappages. */
    method MapOne(root: nat, vpn: nat, e: Pte) returns (r: Outcome)
      requires Valid() && IsRoot(owner, root) && vpn < MAXVPN && e.v && IsLeaf(e)
      modifies this
      ensures Valid() && Grew(root, old(pages), old(free), old(owner), pages, free, owner)
      ensures Remap(old(owner), root, old(pages), pages, if r.Ok? then map[vpn := e] else map[])
      ensures r.Ok? ==>
        Level0(pages, root, vpn).Some? && InTree(owner, Level0(pages, root, vpn).value, root, 0, vpn / ENTRIES)
      ensures r.Panic? <==> Leaf(old(pages), root, vpn).v
      ensures r.NoMemory? ==> free == [] && |old(free)| < 2
      ensures |old(free)| <= |free| + 2
    {
      hide MemOk, Grew, SameLeaves, Remap, Leaf;
      var t := Walk(root, vpn, true);
      GrewRoot(root, old(pages), old(free), old(owner), pages, free, owner, root);
      SameRemap(old(owner), root, old(pages), pages);
      SameAt(old(owner), old(pages), pages, root, vpn);
      r := NoMemory;
      LeafAt(pages, root, vpn);
      if t.Some? {
        if Entry(pages, t.value, vpn % ENTRIES).v {
          r := Panic;
        } else {
          r := Ok;
          MapLeaf(root, old(pages), old(free), old(owner), pages, free, owner, vpn, t.value, e);
          pages := SetEntry(pages, t.value, vpn % ENTRIES, e);
        }
      }
    }

    /** mappages: n pages from vpn on go to consecutive frames. On failure the first k are mapped. */
    method MapPages(root: nat, vpn: nat, n: nat, e: Pte) returns (r: Outcome, ghost k: nat)
      requires Valid() && IsRoot(owner, root) && 0 < n && vpn + n <= MAXVPN && e.v && IsLeaf(e)
      modifies this
      ensures Valid() && Grew(root, old(pages), old(free), old(owner), pages, free, owner)
      ensures k <= n && Remap(old(owner), root, old(pages), pages, Range(vpn, k, e))
      ensures r.Ok? ==> k == n
      ensures r.Panic? ==> k < n && Leaf(old(pages), root, vpn + k).v
      ensures r.NoMemory? ==> k < n && free == [] && |old(free)| < 2 * n
      ensures |old(free)| <= |free| + 2 * n
    {
      hide MemOk, Grew, Remap, Range, Leaf;
      GrewRefl(root, pages, free, owner);
      SameRemap(owner, root, pages, pages);
      RangeFacts(vpn, 0, e);
      r, k := Ok, 0;
      var done := 0;
      while done < n && r.Ok?
        invariant k <= done <= n && Valid() && IsRoot(owner, root) && (r.Ok? ==> k == done) && (!r.Ok? ==> k < n)
        invariant Grew(root, old(pages), old(free), old(owner), pages, free, owner)
        invariant Remap(old(owner), root, old(pages), pages, Range(vpn, k, e))
        invariant r.Panic? ==> Leaf(old(pages), root, vpn + k).v
        invariant r.NoMemory? ==> free == [] && |old(free)| < 2 * n
        invariant |old(free)| <= |free| + 2 * done
      {
        ghost var pages1, free1, owner1 := pages, free, owner;
        r := MapOne(root, vpn + done, e.(ppn := e.ppn + done));
        RangeFacts(vpn, k, e);
        RemapStep(root, old(pages), old(free), old(owner), pages1, free1, owner1, pages, free, owner, Range(vpn, k, e),
            if r.Ok? then map[vpn + k := e.(ppn := e.ppn + k)] else map[]);
        RemapAt(old(owner), root, old(pages), pages1, Range(vpn, k, e), vpn + k);
        if r.Ok? {
          k := k + 1;
        }
        done := done + 1;
      }
    }

    /** One turn of the loop of uvmunmap. */
    method UnmapOne(root: nat, vpn: nat, dofree: bool) returns (ok: bool)
      requires Valid() && IsRoot(owner, root) && vpn < MAXVPN && Unmappable(pages, owner, root, vpn, dofree)
      modifies this
      ensures Valid() && (ok <==> Leaf(old(pages), root, vpn).v) && (!ok ==> unchanged(this))
      ensures ok ==>
        Remap(old(owner), root, old(pages), pages, map[vpn := ZERO]) && owner == Unowned(old(owner), root, vpn, 1)
      ensures ok ==> free == (if dofree then [Leaf(old(pages), root, vpn).ppn] else []) + old(free)
      ensures ok ==> Kept(old(pages), old(owner), pages, owner)
    {
      hide MemOk, Grew, SameLeaves, Remap, Leaf, Unmappable, Unowned, Kept;
      var t := Walk(root, vpn, false);
      LeafAt(pages, root, vpn);
      ok := t.Some? && Entry(pages, t.value, vpn % ENTRIES).v;
      if ok {
        var p := Entry(pages, t.value, vpn % ENTRIES).ppn;
        if dofree {
          FrameThere(pages, free, owner, root, vpn);
          var freed := Kfree(p);
          FreedFrame(old(pages), old(free), old(owner), root, vpn, t.value, p);
        } else {
          assert [] + free == free;
          ClearedLeaf(pages, free, owner, root, vpn, t.value);
        }
        pages := SetEntry(pages, t.value, vpn % ENTRIES, ZERO);
      }
    }

    /** uvmunmap: fails, where the kernel panics, at the first page that is not mapped. */
    method UvmUnmap(root: nat, vpn: nat, n: nat, dofree: bool) returns (ok: bool, ghost k: nat)
      requires Valid() && IsRoot(owner, root) && vpn + n <= MAXVPN
      requires forall v: nat | vpn <= v < vpn + n :: Unmappable(pages, owner, root, v, dofree)
      modifies this
      ensures Valid() && k <= n && (ok <==> k == n) && (!ok ==> !Leaf(old(pages), root, vpn + k).v)
      ensures forall v: nat | vpn <= v < vpn + k :: Leaf(old(pages), root, v).v
      ensures Remap(old(owner), root, old(pages), pages, Cleared(vpn, k)) && owner == Unowned(old(owner), root, vpn, k)
      ensures Kept(old(pages), old(owner), pages, owner)
    {
      hide MemOk, Remap, Unmappable, Unowned, Leaf, Cleared, Kept;
      UnownedNone(pages, owner, root, vpn);
      ok, k := true, 0;
      var done := 0;
      while done < n && ok
        invariant done <= n && k <= n && (if ok then k == done else k < n && !Leaf(old(pages), root, vpn + k).v)
        invariant Valid() && IsRoot(owner, root)
        invariant ok ==> forall v: nat | vpn + k <= v < vpn + n :: Unmappable(pages, owner, root, v, dofree)
        invariant forall v: nat | vpn <= v < vpn + k :: Leaf(old(pages), root, v).v
        invariant Remap(old(owner), root, old(pages), pages, Cleared(vpn, k))
        invariant owner == Unowned(old(owner), root, vpn, k)
        invariant Kept(old(pages), old(owner), pages, owner)
      {
        ghost var pages1, owner1 := pages, owner;
        RemapAt(old(owner), root, old(pages), pages1, Cleared(vpn, k), vpn + k);
        ok := UnmapOne(root, vpn + done, dofree);
        if ok {
          UnmapStep(old(pages), old(owner), pages1, owner1, pages, owner, root, vpn, k, n, dofree);
          k := k + 1;
        }
        done := done + 1;
      }
    }

    /** One turn of the loops of uvmalloc and uvmcopy: a new page with the given bytes behind vpn, or
        nothing. */
    method AllocOne(root: nat, vpn: nat, e: Pte, bytes: seq<nat>) returns (ok: bool)
      requires Valid() && IsRoot(owner, root) && vpn < MAXVPN && e.v && IsLeaf(e) && !Leaf(pages, root, vpn).v
      requires |bytes| == PGSIZE
      modifies this
      ensures Valid() && Took(root, vpn, if ok then 1 else 0, old(pages), old(owner), pages, owner)
      ensures ok ==>
        Remap(old(owner), root, old(pages), pages, map[vpn := Leaf(pages, root, vpn)]) &&
        Holds(pages, owner, root, vpn, e, bytes)
      ensures !ok ==> Remap(old(owner), root, old(pages), pages, map[]) && |old(free)| < 3
      ensures |free| + (if ok then 1 else 0) <= |old(free)| <= |free| + 3
    {
      hide TreesOk, FreeOk, Grew, Remap, Leaf, Range, Took, Holds, Fill, Backed;
      var mem := Kalloc();
      ok := mem.Some?;
      if !ok {
        TookNone(root, vpn, pages, owner);
      } else {
        var p := mem.value;
        Blank(old(pages), old(free), old(owner), pages, free, owner, p, root, vpn, bytes);
        pages := pages[p := Data(bytes)];
        ghost var pages1, free1, owner1 := pages, free, owner;
        var r;
        ghost var k;
        r, k := MapPages(root, vpn, 1, e.(ppn := p));
        GrewLess(root, pages1, free1, owner1, pages, free, owner);
        ok := r.Ok?;
        if ok {
          MappedOne(old(pages), old(owner), pages1, free1, owner1, pages, free, owner, root, vpn, e, p, bytes);
          owner := owner[p := Frame(root, vpn, Level0(pages, root, vpn).value)];
        } else {
          ghost var pages2, free2, owner2 := pages, free, owner;
          MappedNone(old(pages), old(owner), pages1, free1, owner1, pages2, free2, owner2, root, vpn, e, p, bytes);
          var freed := Kfree(p);
        }
      }
    }

    /** uvmdealloc: unmap and free the pages between the two sizes. */
    method UvmDealloc(root: nat, oldsz: nat, newsz: nat) returns (sz: nat, ok: bool)
      requires Valid() && IsRoot(owner, root) && PagesFor(oldsz) <= MAXVPN
      requires forall v: nat | PagesFor(newsz) <= v < PagesFor(oldsz) ::
        Leaf(pages, root, v).v && Unmappable(pages, owner, root, v, true)
      modifies this
      ensures Valid() && ok && sz == if newsz < oldsz then newsz else oldsz
      ensures oldsz <= newsz ==> unchanged(this)
      ensures var lo, n := PagesFor(newsz), if newsz < oldsz then PagesFor(oldsz) - PagesFor(newsz) else 0;
        && Remap(old(owner), root, old(pages), pages, Cleared(lo, n)) && owner == Unowned(old(owner), root, lo, n)
        && Kept(old(pages), old(owner), pages, owner)
    {
      hide MemOk, Remap, Unmappable, Unowned, Leaf, Cleared, Kept;
      UnownedNone(pages, owner, root, PagesFor(newsz));
      sz, ok := oldsz, true;
      if newsz < oldsz {
        sz := newsz;
        if PagesFor(newsz) < PagesFor(oldsz) {
          ghost var k;
          ok, k := UvmUnmap(root, PagesFor(newsz), PagesFor(oldsz) - PagesFor(newsz), true);
        }
      }
    }

    /** uvmalloc: all pages up to newsz, or none. Of the pages up to newsz those must not be mapped that the free
        pages could fill, and one more, where it stops for lack of memory. */
    method UvmAlloc(root: nat, oldsz: nat, newsz: nat, e: Pte) returns (sz: nat, ghost ok: bool)
      requires Valid() && IsRoot(owner, root) && e.v && IsLeaf(e)
      requires forall v: nat | PagesFor(oldsz) <= v < PagesFor(newsz) && v <= PagesFor(oldsz) + |free| ::
        Vacant(pages, root, v)
      modifies this
      ensures Valid() && sz == if newsz < oldsz then oldsz else if ok then newsz else 0
      ensures newsz < oldsz ==> unchanged(this)
      ensures oldsz <= newsz ==> var lo, n := PagesFor(oldsz), PagesFor(newsz) - PagesFor(oldsz);
        AllOrNone(root, lo, Copies(n, e, Fill(0)), ok, old(pages), old(owner), pages, owner) &&
          (3 * n <= |old(free)| ==> ok) && (ok ==> n <= |old(free)|)
    {
      hide TreesOk, FreeOk, Leaf, Fill, Filled, AllOrNone, Copies;
      sz, ok := oldsz, true;
      if oldsz <= newsz {
        sz := newsz;
        var lo, hi := PagesFor(oldsz), PagesFor(newsz);
        ghost var top := Min(hi, lo + |free| + 1);
        ghost var c := Copies(top - lo, e, Fill(0));
        AllocNone(root, lo, c, pages, owner);
        TopIsBelow(pages, root, lo, hi, top, |free|);
        var a, more := lo, true;
        while a < hi && more
          invariant lo <= a <= top && |free| + (a - lo) <= |old(free)|
          invariant a <= hi && Valid() && IsRoot(owner, root) && (!more ==> a < hi)
          invariant Filled(root, lo, a - lo, c, old(pages), old(owner), pages, owner)
          invariant (more ==> |old(free)| <= |free| + 3 * (a - lo)) && (!more ==> |old(free)| < 3 * (hi - lo))
          decreases hi - a, more
        {
          ghost var pages1, owner1 := pages, owner;
          StillFree(old(pages), old(owner), pages, owner, root, lo, a - lo, c);
          more := AllocOne(root, a, e, Fill(0));
          AllocStep(old(pages), old(owner), pages1, owner1, pages, owner, root, lo, a - lo, c, more);
          if more {
            a := a + 1;
          }
        }
        if !more {
          ok, sz := false, 0;
          UndoAlloc(root, lo, a, c, old(pages), old(free), old(owner));
          FilledNone(root, lo, c, Copies(hi - lo, e, Fill(0)), old(pages), old(owner), pages, owner);
        }
        FilledAll(root, lo, Copies(hi - lo, e, Fill(0)), old(pages), old(owner), pages, owner, ok);
      }
    }

    /** The error path of uvmalloc and uvmcopy: unmap and free the pages mapped so far. */
    method UndoAlloc(root: nat, lo: nat, a: nat, ghost c: seq<(Pte, seq<nat>)>, ghost pages0: Pages,
        ghost free0: seq<nat>, ghost owner0: Owners)
      requires Valid() && lo <= a <= lo + |c| && lo + |c| <= MAXVPN && IsRoot(owner, root) && IsRoot(owner0, root)
      requires MemOk(pages0, free0, owner0)
      requires Filled(root, lo, a - lo, c, pages0, owner0, pages, owner)
      requires (forall v: nat | lo <= v < lo + |c| :: !Leaf(pages0, root, v).v) && forall i | 0 <= i < |c| :: c[i].0.v
      modifies this
      ensures Valid() && Filled(root, lo, 0, c, pages0, owner0, pages, owner)
    {
      hide TreesOk, FreeOk, Leaf, Filled, Cleared, Unowned, Kept, Remap;
      ghost var pages1, owner1 := pages, owner;
      FilledUnmappable(pages0, owner0, pages, owner, root, lo, a, c);
      var sz, ok := UvmDealloc(root, a * PGSIZE, lo * PGSIZE);
      RolledBack(pages0, owner0, pages1, owner1, pages, owner, root, lo, a - lo, c);
    }

    /** uvmcopy: the child gets every page of the parent, or none. */
    method UvmCopy(parent: nat, child: nat, sz: nat) returns (ok: bool)
      requires Valid() && IsRoot(owner, parent) && IsRoot(owner, child) && parent != child && PagesFor(sz) <= MAXVPN
      requires forall v: nat | v < PagesFor(sz) :: !Leaf(pages, child, v).v && HasPage(pages, owner, parent, v)
      modifies this
      ensures Valid()
      ensures AllOrNone(child, 0, Image(old(pages), parent, PagesFor(sz)), ok, old(pages), old(owner), pages, owner)
      ensures 3 * PagesFor(sz) <= |old(free)| ==> ok
    {
      hide TreesOk, FreeOk, Leaf, Filled, AllOrNone, Image, HasPage;
      var n := PagesFor(sz);
      ghost var c := Image(pages, parent, n);
      ImageFacts(pages, owner, parent, n);
      AllocNone(child, 0, c, pages, owner);
      var i := 0;
      ok := true;
      while i < n && ok
        invariant 0 <= i <= n && Valid() && IsRoot(owner, child) && (!ok ==> i < n)
        invariant Filled(child, 0, i, c, old(pages), old(owner), pages, owner)
        invariant (ok ==> |old(free)| <= |free| + 3 * i) && (!ok ==> |old(free)| < 3 * n)
        decreases n - i, ok
      {
        ghost var pages1, owner1 := pages, owner;
        StillFree(old(pages), old(owner), pages, owner, child, 0, i, c);
        StillThere(old(pages), old(owner), pages, owner, parent, child, n, i, c);
        assert c[i].0 == Leaf(pages, parent, i);
        var t := Walk(parent, i, false);
        LeafAt(pages, parent, i);
        var e := Entry(pages, t.value, i % ENTRIES);
        ok := AllocOne(child, i, e, pages[e.ppn].bytes);
        AllocStep(old(pages), old(owner), pages1, owner1, pages, owner, child, 0, i, c, ok);
        if ok {
          i := i + 1;
        }
      }
      if !ok {
        UndoAlloc(child, 0, i, c, old(pages), old(free), old(owner));
      }
      FilledAll(child, 0, c, old(pages), old(owner), pages, owner, ok);
    }
  }

  datatype Outcome = Ok | NoMemory | Panic

  /** The entries that mappages stores: consecutive frames from e's on. */
  ghost function Range(vpn: nat, n: nat, e: Pte): (r: map<nat, Pte>)
    ensures forall v :: v in r <==> vpn <= v < vpn + n
    ensures forall v | v in r :: r[v] == e.(ppn := e.ppn + (v - vpn))
  {
    if n == 0 then map[] else Range(vpn, n - 1, e)[vpn + n - 1 := e.(ppn := e.ppn + (n - 1))]
  }

  lemma RangeFacts(vpn: nat, n: nat, e: Pte)
    ensures Range(vpn, 0, e) == map[]
    ensures Range(vpn, n, e) + map[] == Range(vpn, n, e)
    ensures Range(vpn, n, e) + map[vpn + n := e.(ppn := e.ppn + n)] == Range(vpn, n + 1, e)
    ensures vpn + n !in Range(vpn, n, e)
  {
  }

  ghost function Cleared(vpn: nat, n: nat): (r: map<nat, Pte>)
    ensures forall v :: v in r <==> vpn <= v < vpn + n
    ensures forall v | v in r :: r[v] == ZERO
  {
    if n == 0 then map[] else Cleared(vpn, n - 1)[vpn + n - 1 := ZERO]
  }

  lemma SameRemap(owner: Owners, root: nat, before: Pages, after: Pages)
    ensures SameLeaves(owner, before, after) ==> Remap(owner, root, before, after, map[])
    ensures Remap(owner, root, before, before, map[])
  {
    hide Leaf;
  }

  lemma GrewRoot(root: nat, pages: Pages, free: seq<nat>, owner: Owners, pages': Pages, free': seq<nat>,
      owner': Owners, r: nat)
    requires Grew(root, pages, free, owner, pages', free', owner')
    ensures IsRoot(owner', r) <==> IsRoot(owner, r)
  {
  }

  lemma SameAt(owner: Owners, before: Pages, after: Pages, root: nat, vpn: nat)
    requires SameLeaves(owner, before, after) && IsRoot(owner, root) && vpn < MAXVPN
    ensures Leaf(after, root, vpn) == Leaf(before, root, vpn)
  {
  }

  lemma RemapAt(owner: Owners, root: nat, before: Pages, after: Pages, change: map<nat, Pte>, vpn: nat)
    requires Remap(owner, root, before, after, change) && IsRoot(owner, root) && vpn < MAXVPN
    ensures Leaf(after, root, vpn) == if vpn in change then change[vpn] else Leaf(before, root, vpn)
  {
  }

  lemma LeafAt(pages: Pages, root: nat, vpn: nat)
    ensures Leaf(pages, root, vpn) == if Level0(pages, root, vpn).Some?
      then Entry(pages, Level0(pages, root, vpn).value, vpn % ENTRIES) else ZERO
  {
  }

  /** No frame is recorded behind an entry that is not valid. */
  lemma NoFrameAt(pages: Pages, owner: Owners, t: nat, i: nat)
    requires TreesOk(pages, owner) && !Entry(pages, t, i).v
    ensures NoFrame(owner, t, i)
  {
    forall p | p in owner && owner[p].Frame? && owner[p].table == t ensures owner[p].vpn % ENTRIES != i {
      assert PageOk(pages, owner, p, owner[p]);
    }
  }

  lemma MapLeaf(root: nat, pages: Pages, free: seq<nat>, owner: Owners, pages1: Pages, free1: seq<nat>,
      owner1: Owners, vpn: nat, t: nat, e: Pte)
    requires Grew(root, pages, free, owner, pages1, free1, owner1) && SameLeaves(owner, pages, pages1)
    requires MemOk(pages1, free1, owner1)
    requires IsRoot(owner, root) && IsRoot(owner1, root) && vpn < MAXVPN && e.v && IsLeaf(e)
    requires Level0(pages1, root, vpn) == Some(t) && InTree(owner1, t, root, 0, vpn / ENTRIES)
    requires !Entry(pages1, t, vpn % ENTRIES).v
    ensures IsTable(pages1, t)
    ensures var pages' := SetEntry(pages1, t, vpn % ENTRIES, e);
      && MemOk(pages', free1, owner1) && Grew(root, pages, free, owner, pages', free1, owner1)
      && Remap(owner, root, pages, pages', map[vpn := e]) && Level0(pages', root, vpn) == Some(t)
  {
    hide TreesOk, FreeOk, Leaf, Level0;
    NoFrameAt(pages1, owner1, t, vpn % ENTRIES);
    SetLeafOk(pages1, owner1, t, vpn % ENTRIES, e);
    forall r, v: nat | IsRoot(owner, r) && v < MAXVPN
      ensures Leaf(SetEntry(pages1, t, vpn % ENTRIES, e), r, v) == if r == root && v == vpn then e
        else Leaf(pages, r, v)
    {
      SetLeafAt(pages1, owner1, root, vpn, t, e, r, v);
    }
    SetLeafAt(pages1, owner1, root, vpn, t, e, root, vpn);
  }

  lemma RemapStep(root: nat, pages: Pages, free: seq<nat>, owner: Owners, pages1: Pages, free1: seq<nat>,
      owner1: Owners,
                  pages2: Pages, free2: seq<nat>, owner2: Owners, c1: map<nat, Pte>, c2: map<nat, Pte>)
    requires Grew(root, pages, free, owner, pages1, free1, owner1) && Remap(owner, root, pages, pages1, c1)
    requires Grew(root, pages1, free1, owner1, pages2, free2, owner2) && Remap(owner1, root, pages1, pages2, c2)
    ensures Grew(root, pages, free, owner, pages2, free2, owner2) && Remap(owner, root, pages, pages2, c1 + c2)
    ensures IsRoot(owner1, root) ==> IsRoot(owner2, root)
  {
    hide Leaf;
    forall r, v: nat | IsRoot(owner, r) && v < MAXVPN
      ensures Leaf(pages2, r, v) == if r == root && v in c1 + c2 then (c1 + c2)[v] else Leaf(pages, r, v)
    {
      assert IsRoot(owner1, r);
      assert Leaf(pages1, r, v) == if r == root && v in c1 then c1[v] else Leaf(pages, r, v);
    }
  }

  /** PX(level, va). */
  function Index(vpn: nat, level: nat): (i: nat)
    ensures i < ENTRIES
  {
    (if level == 0 then vpn else if level == 1 then vpn / ENTRIES else vpn / ENTRIES / ENTRIES) % ENTRIES
  }

  /** The part of vpn above the given level. */
  function Key(vpn: nat, level: nat): nat {
    if level == 0 then vpn / ENTRIES else if level == 1 then vpn / ENTRIES / ENTRIES else 0
  }

  lemma KeyBelow(vpn: nat, level: nat)
    requires vpn < MAXVPN && 0 < level <= 2
    ensures Key(vpn, level) * ENTRIES + Index(vpn, level) == Key(vpn, level - 1)
    ensures KeyOk(level - 1, Key(vpn, level - 1))
  {
    assert vpn / ENTRIES / ENTRIES * ENTRIES + vpn / ENTRIES % ENTRIES == vpn / ENTRIES;
  }

  /** The table that a walk reaches at a level. */
  function Node(pages: Pages, root: nat, vpn: nat, level: nat): Option<nat> {
    if level == 2 then Some(root) else if level == 1 then Level1(pages, root, vpn) else Level0(pages, root, vpn)
  }

  lemma GrewTrans(root: nat, pages: Pages, free: seq<nat>, owner: Owners, pages1: Pages, free1: seq<nat>,
      owner1: Owners, pages2: Pages, free2: seq<nat>, owner2: Owners)
    requires Grew(root, pages, free, owner, pages1, free1, owner1) && SameLeaves(owner, pages, pages1)
    requires Grew(root, pages1, free1, owner1, pages2, free2, owner2) && SameLeaves(owner1, pages1, pages2)
    ensures Grew(root, pages, free, owner, pages2, free2, owner2) && SameLeaves(owner, pages, pages2)
    ensures IsRoot(owner1, root) ==> IsRoot(owner2, root)
  {
    hide Leaf;
    forall r, v: nat | IsRoot(owner, r) && v < MAXVPN ensures Leaf(pages2, r, v) == Leaf(pages, r, v) {
      assert IsRoot(owner1, r) && Leaf(pages1, r, v) == Leaf(pages, r, v);
    }
  }

  lemma StepDown(pages1: Pages, pages: Pages, owner1: Owners, root: nat, vpn: nat, level: nat, up: nat, t: Option<nat>)
    requires 0 < level <= 2 && vpn < MAXVPN && Node(pages1, root, vpn, level) == Some(up)
    requires InTree(owner1, up, root, level, Key(vpn, level))
    requires IsRoot(owner1, root)
    requires forall x, j | x in owner1 && owner1[x].Tree? && (x != up || j != Index(vpn, level)) ::
      Entry(pages, x, j) == Entry(pages1, x, j)
    requires t.Some? ==> Entry(pages, up, Index(vpn, level)) == Pointer(t.value)
    requires t.None? ==> !Entry(pages, up, Index(vpn, level)).v
    ensures Node(pages, root, vpn, level - 1) == t
    ensures Key(vpn, level) * ENTRIES + Index(vpn, level) == Key(vpn, level - 1)
    ensures t.None? ==> Level0(pages, root, vpn) == None
  {
    assert vpn / ENTRIES / ENTRIES * ENTRIES + vpn / ENTRIES % ENTRIES == vpn / ENTRIES;
    if level == 1 {
      assert Level1(pages, root, vpn) == Level1(pages1, root, vpn);
    }
  }

  ghost predicate SameLeaves(owner: Owners, before: Pages, after: Pages) {
    forall r, v: nat | IsRoot(owner, r) && v < MAXVPN :: Leaf(after, r, v) == Leaf(before, r, v)
  }

  lemma GrewRefl(root: nat, pages: Pages, free: seq<nat>, owner: Owners)
    ensures Grew(root, pages, free, owner, pages, free, owner)
    ensures SameLeaves(owner, pages, pages)
  {
  }

  lemma EntryFacts(pages: Pages, owner: Owners, q: nat, i: nat)
    requires TreesOk(pages, owner) && q in owner && owner[q].Tree? && i < ENTRIES
    ensures IsTable(pages, q) && owner[q].level <= 2 && EntryOk(pages, owner, q, i, owner[q])
  {
    assert PageOk(pages, owner, q, owner[q]);
  }

  lemma Descended(pages: Pages, free: seq<nat>, owner: Owners, q: nat, i: nat, p: nat, free': seq<nat>)
    requires MemOk(pages, free, owner) && i < ENTRIES && q in owner && owner[q].Tree? && owner[q].level > 0
    requires IsTable(pages, q)
    requires !Entry(pages, q, i).v && free == [p] + free' && p in owner && owner[p] == Free
    requires FreeOk(free', owner[p := Kernel]) && TreesOk(pages[p := Data(Fill(5))], owner[p := Kernel])
    requires KeyOk(owner[q].level - 1, owner[q].key * ENTRIES + i)
    ensures var o := Tree(owner[q].root, owner[q].level - 1, owner[q].key * ENTRIES + i, q);
      var pages' := Link(pages[p := Data(Fill(5))], q, i, p);
      && MemOk(pages', free', owner[p := Kernel][p := o])
      && Grew(owner[q].root, pages, free, owner, pages', free', owner[p := Kernel][p := o])
      && SameLeaves(owner, pages, pages')
  {
    hide TreesOk, SameLeaves, Fill;
    LinkOk(pages[p := Data(Fill(5))], owner[p := Kernel], q, i, p);
    LinkSameLeaves(pages, owner, q, i, p);
    EntryFacts(pages, owner, q, i);
  }

  lemma LinkSameLeaves(pages: Pages, owner: Owners, q: nat, i: nat, p: nat)
    requires TreesOk(pages, owner) && i < ENTRIES && q in owner && owner[q].Tree? && owner[q].level > 0
    requires IsTable(pages, q)
    requires !Entry(pages, q, i).v && p in owner && owner[p] == Free
    requires TreesOk(pages[p := Data(Fill(5))], owner[p := Kernel])
    ensures SameLeaves(owner, pages, Link(pages[p := Data(Fill(5))], q, i, p))
  {
    hide TreesOk, Leaf, Fill;
    var pages1, owner1 := pages[p := Data(Fill(5))], owner[p := Kernel];
    forall r, v: nat | IsRoot(owner, r) && v < MAXVPN ensures Leaf(Link(pages1, q, i, p), r, v) == Leaf(pages, r, v) {
      RetagLeaf(pages, owner, p, Data(Fill(5)), r, v);
      LinkLeaf(pages1, owner1, q, i, p, r, v);
    }
  }

  function Fill(byte: nat): (s: seq<nat>)
    ensures |s| == PGSIZE && forall i | 0 <= i < PGSIZE :: s[i] == byte
  {
    Repeat(byte, PGSIZE)
  }

  lemma PopOk(free: seq<nat>, owner: Owners)
    requires FreeOk(free, owner) && free != []
    ensures free[0] in owner && owner[free[0]].Free? && FreeOk(free[1..], owner[free[0] := Kernel])
  {
    assert free[0] in free;
    forall p ensures p in free[1..] <==> p in free && p != free[0] {
      if p in free && p != free[0] {
        var i :| 0 <= i < |free| && free[i] == p;
        assert free[1..][i - 1] == p;
      }
    }
  }

  lemma PushOk(free: seq<nat>, owner: Owners, p: nat)
    requires FreeOk(free, owner) && p in owner && !owner[p].Free?
    ensures FreeOk([p] + free, owner[p := Free])
  {
  }

  /** The entry for vpn is invalid, or may be removed: its page is freed exactly if it is a frame. */
  ghost predicate Unmappable(pages: Pages, owner: Owners, root: nat, vpn: nat, dofree: bool) {
    var p := Leaf(pages, root, vpn).ppn;
    Leaf(pages, root, vpn).v ==> if dofree then Backed(owner, p, root, vpn) else !exists q ::
      Backed(owner, q, root, vpn)
  }

  ghost predicate Backed(owner: Owners, p: nat, root: nat, vpn: nat) {
    p in owner && owner[p].Frame? && owner[p].root == root && owner[p].vpn == vpn
  }

  /** The owners after the frames behind n pages from vpn on are freed. */
  ghost function Unowned(owner: Owners, root: nat, vpn: nat, n: nat): Owners {
    map p | p in owner ::
      if owner[p].Frame? && owner[p].root == root && vpn <= owner[p].vpn < vpn + n then Free else owner[p]
  }

  /** A page that stays in the same hands, other than a table or a free page, keeps its bytes. */
  ghost predicate Kept(pages: Pages, owner: Owners, pages': Pages, owner': Owners) {
    forall p | p in pages && p in owner && p in owner' && owner'[p] == owner[p] && !owner[p].Tree? &&
      !owner[p].Free? :: p in pages' && pages'[p] == pages[p]
  }

  /** There is one table at each place, the one that walk finds. */
  lemma TableUnique(pages: Pages, owner: Owners, root: nat, vpn: nat, t: nat)
    requires TreesOk(pages, owner) && InTree(owner, t, root, 0, vpn / ENTRIES) && vpn < MAXVPN
    ensures Level0(pages, root, vpn) == Some(t)
  {
    assert PageOk(pages, owner, t, owner[t]);
    var q := owner[t].up;
    assert PageOk(pages, owner, q, owner[q]);
    assert PageOk(pages, owner, owner[q].up, owner[owner[q].up]);
  }

  lemma FrameUnique(pages: Pages, owner: Owners, root: nat, vpn: nat, p: nat)
    requires TreesOk(pages, owner) && Backed(owner, p, root, vpn) && vpn < MAXVPN
    ensures Leaf(pages, root, vpn).v && Leaf(pages, root, vpn).ppn == p
    ensures Level0(pages, root, vpn) == Some(owner[p].table) && IsData(pages, p)
  {
    assert PageOk(pages, owner, p, owner[p]);
    TableUnique(pages, owner, root, vpn, owner[p].table);
  }

  lemma FrameThere(pages: Pages, free: seq<nat>, owner: Owners, root: nat, vpn: nat)
    requires MemOk(pages, free, owner) && Unmappable(pages, owner, root, vpn, true) && Leaf(pages, root, vpn).v
    requires vpn < MAXVPN
    ensures var p := Leaf(pages, root, vpn).ppn;
      p in owner && owner[p].Frame? && p in pages && Backed(owner, p, root, vpn)
  {
  }

  /** Freeing the frame and then clearing the entry that pointed to it. */
  lemma FreedFrame(pages: Pages, free: seq<nat>, owner: Owners, root: nat, vpn: nat, t: nat, p: nat)
    requires MemOk(pages, free, owner) && IsRoot(owner, root) && vpn < MAXVPN && Backed(owner, p, root, vpn)
    requires Level0(pages, root, vpn) == Some(t)
    requires Leaf(pages, root, vpn).v && Leaf(pages, root, vpn).ppn == p
    requires MemOk(pages[p := Data(Fill(1))], [p] + free, owner[p := Free])
    ensures IsTable(pages[p := Data(Fill(1))], t)
    ensures var pages' := SetEntry(pages[p := Data(Fill(1))], t, vpn % ENTRIES, ZERO);
      && MemOk(pages', [p] + free, owner[p := Free]) && Remap(owner, root, pages, pages', map[vpn := ZERO])
      && owner[p := Free] == Unowned(owner, root, vpn, 1) && Kept(pages, owner, pages', owner[p := Free])
  {
    hide TreesOk, FreeOk, Leaf, Level0, Fill;
    var pages1, owner1 := pages[p := Data(Fill(1))], owner[p := Free];
    PathOk(pages, owner, root, vpn);
    RetagLeaf(pages, owner, p, Data(Fill(1)), root, vpn);
    OnlyFrame(pages, owner, root, vpn, t, p);
    EntryFacts(pages1, owner1, t, vpn % ENTRIES);
    SetLeafOk(pages1, owner1, t, vpn % ENTRIES, ZERO);
    forall r, v: nat | IsRoot(owner, r) && v < MAXVPN
      ensures Leaf(SetEntry(pages1, t, vpn % ENTRIES, ZERO), r, v) == if r == root && v == vpn then ZERO
        else Leaf(pages, r, v)
    {
      RetagLeaf(pages, owner, p, Data(Fill(1)), r, v);
      SetLeafAt(pages1, owner1, root, vpn, t, ZERO, r, v);
    }
  }

  lemma OnlyFrame(pages: Pages, owner: Owners, root: nat, vpn: nat, t: nat, p: nat)
    requires TreesOk(pages, owner) && vpn < MAXVPN && Backed(owner, p, root, vpn) && Level0(pages, root, vpn) == Some(t)
    requires IsRoot(owner, root)
    ensures NoFrame(owner[p := Free], t, vpn % ENTRIES) && owner[p := Free] == Unowned(owner, root, vpn, 1)
  {
    hide TreesOk;
    FrameUnique(pages, owner, root, vpn, p);
    PathOk(pages, owner, root, vpn);
    forall q | q in owner && q != p && Backed(owner, q, root, vpn) ensures false {
      FrameUnique(pages, owner, root, vpn, q);
    }
    forall q | q in owner && q != p && owner[q].Frame? && owner[q].table == t
      ensures owner[q].vpn % ENTRIES != vpn % ENTRIES
    {
      FrameTable(pages, owner, q);
    }
  }

  lemma FrameTable(pages: Pages, owner: Owners, q: nat)
    requires TreesOk(pages, owner) && q in owner && owner[q].Frame?
    ensures InTree(owner, owner[q].table, owner[q].root, 0, owner[q].vpn / ENTRIES)
  {
    assert PageOk(pages, owner, q, owner[q]);
  }

  lemma ClearedLeaf(pages: Pages, free: seq<nat>, owner: Owners, root: nat, vpn: nat, t: nat)
    requires MemOk(pages, free, owner) && IsRoot(owner, root) && vpn < MAXVPN
    requires Unmappable(pages, owner, root, vpn, false) && Level0(pages, root, vpn) == Some(t)
    requires Leaf(pages, root, vpn).v
    ensures IsTable(pages, t)
    ensures var pages' := SetEntry(pages, t, vpn % ENTRIES, ZERO);
      && MemOk(pages', free, owner) && Remap(owner, root, pages, pages', map[vpn := ZERO])
      && owner == Unowned(owner, root, vpn, 1) && Kept(pages, owner, pages', owner)
  {
    hide TreesOk, FreeOk, Leaf, Level0;
    PathOk(pages, owner, root, vpn);
    forall q | q in owner && owner[q].Frame? && owner[q].table == t ensures owner[q].vpn % ENTRIES != vpn % ENTRIES {
      FrameTable(pages, owner, q);
      assert !Backed(owner, q, root, vpn);
    }
    forall q | q in owner && owner[q].Frame? && owner[q].root == root ensures owner[q].vpn != vpn {
      assert !Backed(owner, q, root, vpn);
    }
    EntryFacts(pages, owner, t, vpn % ENTRIES);
    SetLeafOk(pages, owner, t, vpn % ENTRIES, ZERO);
    forall r, v: nat | IsRoot(owner, r) && v < MAXVPN
      ensures Leaf(SetEntry(pages, t, vpn % ENTRIES, ZERO), r, v) == if r == root && v == vpn then ZERO
        else Leaf(pages, r, v)
    {
      SetLeafAt(pages, owner, root, vpn, t, ZERO, r, v);
    }
  }

  lemma UnownedNone(pages: Pages, owner: Owners, root: nat, vpn: nat)
    ensures owner == Unowned(owner, root, vpn, 0) && Remap(owner, root, pages, pages, Cleared(vpn, 0))
    ensures Kept(pages, owner, pages, owner)
  {
  }

  lemma UnmapStep(pages: Pages, owner: Owners, pages1: Pages, owner1: Owners, pages2: Pages, owner2: Owners,
      root: nat, vpn: nat, k: nat, n: nat, dofree: bool)
    requires IsRoot(owner, root) && k < n && vpn + n <= MAXVPN
    requires Remap(owner, root, pages, pages1, Cleared(vpn, k)) && owner1 == Unowned(owner, root, vpn, k)
    requires Kept(pages, owner, pages1, owner1)
    requires Remap(owner1, root, pages1, pages2, map[vpn + k := ZERO]) && owner2 == Unowned(owner1, root, vpn + k, 1)
    requires Kept(pages1, owner1, pages2, owner2)
    requires forall v: nat | vpn + k <= v < vpn + n :: Unmappable(pages1, owner1, root, v, dofree)
    ensures Remap(owner, root, pages, pages2, Cleared(vpn, k + 1)) && owner2 == Unowned(owner, root, vpn, k + 1)
    ensures Kept(pages, owner, pages2, owner2)
    ensures forall v: nat | vpn + k + 1 <= v < vpn + n :: Unmappable(pages2, owner2, root, v, dofree)
    ensures IsRoot(owner2, root)
  {
    hide Leaf;
    forall r, v: nat | IsRoot(owner, r) && v < MAXVPN
      ensures Leaf(pages2, r, v) == if r == root && v in Cleared(vpn, k + 1) then Cleared(vpn, k + 1)[v]
        else Leaf(pages, r, v)
    {
      assert IsRoot(owner1, r);
    }
    forall v: nat | vpn + k + 1 <= v < vpn + n ensures Unmappable(pages2, owner2, root, v, dofree) {
      assert Unmappable(pages1, owner1, root, v, dofree);
      assert Leaf(pages2, root, v) == Leaf(pages1, root, v);
      assert forall q :: Backed(owner2, q, root, v) <==> Backed(owner1, q, root, v);
    }
  }

  /** Free pages have become tables of root, or frames behind the n pages from vpn on; everything else
      is in the same hands and keeps its bytes. */
  ghost predicate Took(root: nat, vpn: nat, n: nat, pages: Pages, owner: Owners, pages': Pages, owner': Owners) {
    && owner'.Keys == owner.Keys && Kept(pages, owner, pages', owner')
    && (forall p | p in owner :: owner'[p] == owner[p] || (owner[p].Free? && Taken(owner'[p], root, vpn, n)))
  }

  predicate Taken(o: Owner, root: nat, vpn: nat, n: nat) {
    match o
    case Tree(r, level, _, _) => r == root && level < 2
    case Frame(r, v, _) => r == root && vpn <= v < vpn + n
    case _ => false
  }

  /** vpn is mapped with e's flags to a frame of its own that holds the given bytes. */
  ghost predicate Holds(pages: Pages, owner: Owners, root: nat, vpn: nat, e: Pte, bytes: seq<nat>) {
    var leaf := Leaf(pages, root, vpn);
    leaf == e.(ppn := leaf.ppn) && Backed(owner, leaf.ppn, root, vpn) && leaf.ppn in pages &&
      pages[leaf.ppn] == Data(bytes)
  }

  lemma TookNone(root: nat, vpn: nat, pages: Pages, owner: Owners)
    ensures Took(root, vpn, 0, pages, owner, pages, owner) && Remap(owner, root, pages, pages, map[])
  {
  }

  /** A page fresh from kalloc gets its bytes. */
  lemma Blank(pages: Pages, free: seq<nat>, owner: Owners, pages1: Pages, free1: seq<nat>, owner1: Owners, p: nat,
      root: nat, vpn: nat, bytes: seq<nat>)
    requires MemOk(pages, free, owner) && MemOk(pages1, free1, owner1) && IsRoot(owner, root) && vpn < MAXVPN
    requires p in owner && owner[p] == Free && owner1 == owner[p := Kernel] && pages1 == pages[p := Data(Fill(5))]
    ensures MemOk(pages1[p := Data(bytes)], free1, owner1) && IsRoot(owner1, root)
    ensures Leaf(pages1[p := Data(bytes)], root, vpn) == Leaf(pages, root, vpn)
  {
    hide TreesOk, FreeOk, Leaf, Fill;
    RetagOk(pages1, owner1, p, Data(bytes), Kernel);
    assert owner1[p := Kernel] == owner1;
    RetagLeaf(pages, owner, p, Data(Fill(5)), root, vpn);
    RetagLeaf(pages1, owner1, p, Data(bytes), root, vpn);
  }

  lemma BlankLeaves(pages: Pages, owner: Owners, p: nat, page: Page, root: nat, pages2: Pages, change: map<nat, Pte>)
    requires TreesOk(pages, owner) && p in owner && owner[p] == Free && IsRoot(owner, root)
    requires Remap(owner[p := Kernel], root, pages[p := page], pages2, change)
    ensures Remap(owner, root, pages, pages2, change)
  {
    hide TreesOk, Leaf;
    forall r, v: nat | IsRoot(owner, r) && v < MAXVPN
      ensures Leaf(pages2, r, v) == if r == root && v in change then change[v] else Leaf(pages, r, v)
    {
      RetagLeaf(pages, owner, p, page, r, v);
      assert IsRoot(owner[p := Kernel], r);
    }
  }

  lemma MappedOne(pages: Pages, owner: Owners, pages1: Pages, free1: seq<nat>, owner1: Owners, pages2: Pages,
      free2: seq<nat>, owner2: Owners,
                  root: nat, vpn: nat, e: Pte, p: nat, bytes: seq<nat>)
    requires TreesOk(pages, owner) && IsRoot(owner, root) && vpn < MAXVPN && e.v && p in owner && owner[p] == Free
    requires |bytes| == PGSIZE
    requires owner1 == owner[p := Kernel] && pages1 == pages[p := Data(bytes)]
    requires MemOk(pages2, free2, owner2) && Grew(root, pages1, free1, owner1, pages2, free2, owner2)
    requires Remap(owner1, root, pages1, pages2, Range(vpn, 1, e.(ppn := p)))
    ensures Level0(pages2, root, vpn).Some?
    ensures var owner' := owner2[p := Frame(root, vpn, Level0(pages2, root, vpn).value)];
      && MemOk(pages2, free2, owner') && Took(root, vpn, 1, pages, owner, pages2, owner')
      && Holds(pages2, owner', root, vpn, e, bytes)
    ensures Remap(owner, root, pages, pages2, map[vpn := Leaf(pages2, root, vpn)])
  {
    hide TreesOk, FreeOk, Leaf, Level0, Remap;
    var change := Range(vpn, 1, e.(ppn := p));
    assert change == map[vpn := e.(ppn := p)];
    RemapAt(owner1, root, pages1, pages2, change, vpn);
    BlankLeaves(pages, owner, p, Data(bytes), root, pages2, change);
    LeafAt(pages2, root, vpn);
    GrewRoot(root, pages1, free1, owner1, pages2, free2, owner2, root);
    PathOk(pages2, owner2, root, vpn);
    OwnFrameOk(pages2, owner2, root, vpn, Level0(pages2, root, vpn).value, p);
    OwnFree(free2, owner2, p, Frame(root, vpn, Level0(pages2, root, vpn).value));
  }

  lemma OwnFree(free: seq<nat>, owner: Owners, p: nat, o: Owner)
    requires FreeOk(free, owner) && p in owner && owner[p] == Kernel && !o.Free?
    ensures FreeOk(free, owner[p := o])
  {
  }

  lemma MappedNone(pages: Pages, owner: Owners, pages1: Pages, free1: seq<nat>, owner1: Owners, pages2: Pages,
      free2: seq<nat>, owner2: Owners,
                   root: nat, vpn: nat, e: Pte, p: nat, bytes: seq<nat>)
    requires TreesOk(pages, owner) && IsRoot(owner, root) && vpn < MAXVPN && p in owner && owner[p] == Free
    requires owner1 == owner[p := Kernel] && pages1 == pages[p := Data(bytes)]
    requires MemOk(pages2, free2, owner2) && Grew(root, pages1, free1, owner1, pages2, free2, owner2)
    requires Remap(owner1, root, pages1, pages2, Range(vpn, 0, e.(ppn := p)))
    ensures p in pages2 && p in owner2 && owner2[p] == Kernel
    ensures var pages' := pages2[p := Data(Fill(1))];
      Took(root, vpn, 0, pages, owner, pages', owner2[p := Free]) && Remap(owner, root, pages, pages', map[])
  {
    hide TreesOk, FreeOk, Leaf, Fill;
    assert Range(vpn, 0, e.(ppn := p)) == map[];
    BlankLeaves(pages, owner, p, Data(bytes), root, pages2, map[]);
    forall r, v: nat | IsRoot(owner, r) && v < MAXVPN
      ensures Leaf(pages2[p := Data(Fill(1))], r, v) == Leaf(pages, r, v)
    {
      GrewRoot(root, pages1, free1, owner1, pages2, free2, owner2, r);
      RetagLeaf(pages2, owner2, p, Data(Fill(1)), r, v);
    }
  }

  /** PGROUNDUP(sz) / PGSIZE */
  function PagesFor(sz: nat): nat {
    (sz + PGSIZE - 1) / PGSIZE
  }

  /** These many pages hold sz bytes, and no fewer do. */
  lemma PagesForIs(sz: nat)
    ensures sz <= PagesFor(sz) * PGSIZE && (PagesFor(sz) > 0 ==> (PagesFor(sz) - 1) * PGSIZE < sz)
  {
  }

  /** Only the n pages from vpn on of one page table may mean something else. */
  ghost predicate SameBut(owner: Owners, root: nat, vpn: nat, n: nat, before: Pages, after: Pages) {
    forall r, v: nat | IsRoot(owner, r) && v < MAXVPN && !(r == root && vpn <= v < vpn + n) ::
      Leaf(after, r, v) == Leaf(before, r, v)
  }

  /** The first n of the pages c are behind the virtual pages from lo on, each in a frame of its own;
      nothing else has changed but that free pages have become tables of root. */
  ghost predicate Filled(root: nat, lo: nat, n: nat, c: seq<(Pte, seq<nat>)>, pages: Pages, owner: Owners,
      pages': Pages, owner': Owners) {
    && Took(root, lo, n, pages, owner, pages', owner') && SameBut(owner, root, lo, n, pages, pages') && n <= |c|
    && (forall v: nat | lo <= v < lo + n :: HoldsAt(pages', owner', root, lo, v, c))
  }

  ghost predicate HoldsAt(pages: Pages, owner: Owners, root: nat, lo: nat, vpn: nat, c: seq<(Pte, seq<nat>)>) {
    lo <= vpn < lo + |c| && Holds(pages, owner, root, vpn, c[vpn - lo].0, c[vpn - lo].1)
  }

  ghost predicate AllOrNone(root: nat, lo: nat, c: seq<(Pte, seq<nat>)>, ok: bool, pages: Pages, owner: Owners,
      pages': Pages, owner': Owners) {
    Filled(root, lo, if ok then |c| else 0, c, pages, owner, pages', owner')
  }

  ghost function Copies(n: nat, e: Pte, bytes: seq<nat>): (c: seq<(Pte, seq<nat>)>)
    ensures |c| == n && forall i | 0 <= i < n :: c[i] == (e, bytes)
  {
    if n == 0 then [] else Copies(n - 1, e, bytes) + [(e, bytes)]
  }

  /** vpn is mapped to a frame of its own. */
  ghost predicate HasPage(pages: Pages, owner: Owners, root: nat, vpn: nat) {
    var leaf := Leaf(pages, root, vpn);
    leaf.v && IsLeaf(leaf) && Backed(owner, leaf.ppn, root, vpn) && IsData(pages, leaf.ppn)
  }

  /** The flags and bytes of the first n pages of a page table. */
  ghost function Image(pages: Pages, root: nat, n: nat): (c: seq<(Pte, seq<nat>)>)
    ensures |c| == n
  {
    if n == 0 then [] else
      var leaf := Leaf(pages, root, n - 1);
      Image(pages, root, n - 1) + [(leaf, if IsData(pages, leaf.ppn) then pages[leaf.ppn].bytes else [])]
  }

  lemma {:induction false} ImageFacts(pages: Pages, owner: Owners, root: nat, n: nat)
    requires forall v: nat | v < n :: HasPage(pages, owner, root, v)
    ensures forall v: nat | v < n :: var c := Image(pages, root, n); var leaf := Leaf(pages, root, v);
      c[v].0 == leaf && c[v].0.v && IsLeaf(c[v].0) && leaf.ppn in pages && pages[leaf.ppn] == Data(c[v].1) &&
        |c[v].1| == PGSIZE
  {
    hide Leaf;
    if n > 0 {
      ImageFacts(pages, owner, root, n - 1);
      assert HasPage(pages, owner, root, n - 1);
    }
  }

  lemma AllocNone(root: nat, lo: nat, c: seq<(Pte, seq<nat>)>, pages: Pages, owner: Owners)
    ensures Filled(root, lo, 0, c, pages, owner, pages, owner)
  {
  }

  lemma FilledAll(root: nat, lo: nat, c: seq<(Pte, seq<nat>)>, pages: Pages, owner: Owners, pages': Pages,
      owner': Owners, ok: bool)
    requires Filled(root, lo, if ok then |c| else 0, c, pages, owner, pages', owner')
    ensures AllOrNone(root, lo, c, ok, pages, owner, pages', owner')
  {
  }

  lemma FilledNone(root: nat, lo: nat, c: seq<(Pte, seq<nat>)>, c': seq<(Pte, seq<nat>)>, pages: Pages, owner: Owners,
      pages': Pages, owner': Owners)
    requires Filled(root, lo, 0, c, pages, owner, pages', owner')
    ensures Filled(root, lo, 0, c', pages, owner, pages', owner')
  {
  }

  /** A page that can be mapped. */
  predicate Vacant(pages: Pages, root: nat, v: nat) {
    v < MAXVPN && !Leaf(pages, root, v).v
  }

  lemma TopIsBelow(pages: Pages, root: nat, lo: nat, hi: nat, top: nat, n: nat)
    requires lo <= hi && top == Min(hi, lo + n + 1)
    requires forall v: nat | lo <= v < hi && v <= lo + n :: Vacant(pages, root, v)
    ensures lo < top ==> top <= MAXVPN
    ensures forall v: nat | lo <= v < top :: !Leaf(pages, root, v).v
  {
    hide Leaf;
    if lo < top {
      assert Vacant(pages, root, top - 1);
    }
    forall v: nat | lo <= v < top ensures !Leaf(pages, root, v).v {
      assert Vacant(pages, root, v);
    }
  }

  lemma GrewLess(root: nat, pages: Pages, free: seq<nat>, owner: Owners, pages': Pages, free': seq<nat>, owner': Owners)
    requires Grew(root, pages, free, owner, pages', free', owner')
    ensures |free'| <= |free|
  {
  }

  /** The pages not yet reached are still unmapped. */
  lemma StillFree(pages: Pages, owner: Owners, pages1: Pages, owner1: Owners, root: nat, lo: nat, n: nat,
      c: seq<(Pte, seq<nat>)>)
    requires Filled(root, lo, n, c, pages, owner, pages1, owner1) && IsRoot(owner, root) && lo + |c| <= MAXVPN
    requires forall v: nat | lo <= v < lo + |c| :: !Leaf(pages, root, v).v
    ensures forall v: nat | lo + n <= v < lo + |c| :: !Leaf(pages1, root, v).v
  {
    hide Leaf;
  }

  /** The parent's pages are as they were. */
  lemma StillThere(pages: Pages, owner: Owners, pages1: Pages, owner1: Owners, parent: nat, child: nat, n: nat,
      i: nat, c: seq<(Pte, seq<nat>)>)
    requires Filled(child, 0, i, c, pages, owner, pages1, owner1) && IsRoot(owner, parent) && parent != child
    requires i < n <= MAXVPN
    requires HasPage(pages, owner, parent, i)
    ensures IsRoot(owner1, parent) && HasPage(pages1, owner1, parent, i)
    ensures Leaf(pages1, parent, i) == Leaf(pages, parent, i) && Leaf(pages, parent, i).ppn in pages
    ensures Leaf(pages, parent, i).ppn in pages1
    ensures pages1[Leaf(pages, parent, i).ppn] == pages[Leaf(pages, parent, i).ppn]
    ensures Leaf(pages, parent, i).v
  {
    hide Leaf;
    TookRoot(child, 0, i, pages, owner, pages1, owner1);
  }

  lemma AllocStep(pages: Pages, owner: Owners, pages1: Pages, owner1: Owners, pages2: Pages, owner2: Owners,
      root: nat, lo: nat, n: nat, c: seq<(Pte, seq<nat>)>, ok: bool)
    requires IsRoot(owner, root) && n < |c| && lo + |c| <= MAXVPN
    requires Filled(root, lo, n, c, pages, owner, pages1, owner1)
    requires Took(root, lo + n, if ok then 1 else 0, pages1, owner1, pages2, owner2)
    requires Remap(owner1, root, pages1, pages2, if ok then map[lo + n := Leaf(pages2, root, lo + n)] else map[])
    requires ok ==> Holds(pages2, owner2, root, lo + n, c[n].0, c[n].1)
    ensures IsRoot(owner2, root) && Filled(root, lo, if ok then n + 1 else n, c, pages, owner, pages2, owner2)
  {
    hide Leaf;
    TookRoot(root, lo, n, pages, owner, pages1, owner1);
    forall v: nat | lo <= v < lo + n ensures HoldsAt(pages2, owner2, root, lo, v, c) {
      assert HoldsAt(pages1, owner1, root, lo, v, c);
      assert Leaf(pages2, root, v) == Leaf(pages1, root, v);
    }
    forall r, v: nat | IsRoot(owner, r) && v < MAXVPN && !(r == root && lo <= v < lo + if ok then n + 1 else n)
      ensures Leaf(pages2, r, v) == Leaf(pages, r, v)
    {
      assert IsRoot(owner1, r);
    }
  }

  lemma TookRoot(root: nat, lo: nat, n: nat, pages: Pages, owner: Owners, pages1: Pages, owner1: Owners)
    requires Took(root, lo, n, pages, owner, pages1, owner1)
    ensures forall r :: IsRoot(owner, r) <==> IsRoot(owner1, r)
  {
  }

  lemma FilledUnmappable(pages: Pages, owner: Owners, pages1: Pages, owner1: Owners, root: nat, lo: nat, a: nat,
      c: seq<(Pte, seq<nat>)>)
    requires lo <= a && Filled(root, lo, a - lo, c, pages, owner, pages1, owner1) && forall i | 0 <= i < |c| :: c[i].0.v
    ensures PagesFor(lo * PGSIZE) == lo && PagesFor(a * PGSIZE) == a
    ensures forall v: nat | lo <= v < a :: Leaf(pages1, root, v).v && Unmappable(pages1, owner1, root, v, true)
  {
    hide Leaf;
    forall v: nat | lo <= v < a ensures Leaf(pages1, root, v).v && Unmappable(pages1, owner1, root, v, true) {
      assert HoldsAt(pages1, owner1, root, lo, v, c);
    }
  }

  /** After the rollback every page table means what it meant before. */
  lemma RolledBack(pages: Pages, owner: Owners, pages1: Pages, owner1: Owners, pages2: Pages, owner2: Owners,
      root: nat, lo: nat, n: nat, c: seq<(Pte, seq<nat>)>)
    requires TreesOk(pages, owner) && IsRoot(owner, root) && lo + n <= MAXVPN
    requires forall v: nat | lo <= v < lo + n :: !Leaf(pages, root, v).v
    requires Filled(root, lo, n, c, pages, owner, pages1, owner1)
    requires Remap(owner1, root, pages1, pages2, Cleared(lo, n)) && owner2 == Unowned(owner1, root, lo, n)
    requires Kept(pages1, owner1, pages2, owner2)
    ensures Filled(root, lo, 0, c, pages, owner, pages2, owner2)
  {
    hide TreesOk, Leaf, HoldsAt;
    TookRoot(root, lo, n, pages, owner, pages1, owner1);
    forall p | p in owner && owner[p].Frame? && owner[p].root == root ensures !(lo <= owner[p].vpn < lo + n) {
      if lo <= owner[p].vpn < lo + n {
        assert Backed(owner, p, root, owner[p].vpn);
        FrameUnique(pages, owner, root, owner[p].vpn, p);
      }
    }
    forall r, v: nat | IsRoot(owner, r) && v < MAXVPN ensures Leaf(pages2, r, v) == Leaf(pages, r, v) {
      if r == root && lo <= v < lo + n {
        InvalidIsZero(pages, owner, root, v);
      }
    }
  }

  lemma InvalidIsZero(pages: Pages, owner: Owners, root: nat, vpn: nat)
    requires TreesOk(pages, owner) && IsRoot(owner, root) && vpn < MAXVPN && !Leaf(pages, root, vpn).v
    ensures Leaf(pages, root, vpn) == ZERO
  {
    PathOk(pages, owner, root, vpn);
    if Level0(pages, root, vpn).Some? {
      EntryFacts(pages, owner, Level0(pages, root, vpn).value, vpn % ENTRIES);
    }
  }

  lemma NewRoot(pages0: Pages, owner0: Owners, pages: Pages, free: seq<nat>, owner: Owners, p: nat)
    requires TreesOk(pages0, owner0) && MemOk(pages, free, owner) && p in owner0 && owner0[p] == Free
    requires owner == owner0[p := Kernel] && pages == pages0[p := Data(Fill(5))]
    ensures var pages', owner' := pages[p := Table(Repeat(ZERO, ENTRIES))], owner[p := Tree(p, 2, 0, p)];
      && MemOk(pages', free, owner') && IsRoot(owner', p) && SameLeaves(owner0, pages0, pages')
      && (forall v: nat | v < MAXVPN :: Leaf(pages', p, v) == ZERO)
  {
    hide TreesOk, Leaf, Fill, Repeat;
    var page := Table(Repeat(ZERO, ENTRIES));
    var pages' := pages[p := page];
    NewRootTrees(pages, owner, p);
    forall r, v: nat | IsRoot(owner0, r) && v < MAXVPN ensures Leaf(pages', r, v) == Leaf(pages0, r, v) {
      RetagLeaf(pages0, owner0, p, page, r, v);
      assert pages' == pages0[p := page];
    }
    forall v: nat | v < MAXVPN ensures Leaf(pages', p, v) == ZERO {
      EmptyLeaf(pages, p, v);
    }
  }

  lemma NewRootTrees(pages: Pages, owner: Owners, p: nat)
    requires TreesOk(pages, owner) && p in owner && owner[p] == Kernel
    ensures TreesOk(pages[p := Table(Repeat(ZERO, ENTRIES))], owner[p := Tree(p, 2, 0, p)])
  {
    var pages', owner' := pages[p := Table(Repeat(ZERO, ENTRIES))], owner[p := Tree(p, 2, 0, p)];
    forall q | q in owner' && q != p ensures PageOk(pages', owner', q, owner'[q]) {
      assert PageOk(pages, owner, q, owner[q]);
      if owner[q].Tree? {
        forall j: nat | j < ENTRIES ensures EntryOk(pages', owner', q, j, owner[q]) {
          assert EntryOk(pages, owner, q, j, owner[q]);
        }
      }
    }
  }

  lemma EmptyLeaf(pages: Pages, p: nat, v: nat)
    ensures Leaf(pages[p := Table(Repeat(ZERO, ENTRIES))], p, v) == ZERO
  {
  }
}
