/**
 The life of a process's page table: proc_pagetable with its error paths and proc_freepagetable of
 kernel/proc.c, around uvmalloc of kernel/vm.c. Whatever happens in between, the pages that were free
 before are free after, and no other page table has changed.
 */
module AddressSpace {
  import opened Common
  import opened PageTable
  import opened PageFree
  import U = UserCopy

  /** Free pages have become root's; nothing else has changed hands. */
  ghost predicate Gave(owner: Owners, owner': Owners, root: nat) {
    && owner'.Keys == owner.Keys
    && forall p | p in owner :: if OwnedBy(owner'[p], root) then owner[p].Free? else owner'[p] == owner[p]
  }

  /** A new page table has been built at root out of free pages; the page tables that were there mean
      what they meant, and no page that stayed in the same hands has changed. */
  ghost predicate Built(pages: Pages, owner: Owners, pages': Pages, owner': Owners, root: nat) {
    Gave(owner, owner', root) && Kept(pages, owner, pages', owner') && SameLeaves(owner, pages, pages')
  }

  /** Page table root has no frames of its own. */
  ghost predicate NoFrames(owner: Owners, root: nat) {
    forall p | p in owner && owner[p].Frame? :: owner[p].root != root
  }

  /** A page that belongs to a page table leads up to its root. */
  lemma RootOwned(pages: Pages, owner: Owners, p: nat)
    requires TreesOk(pages, owner) && p in owner && (owner[p].Tree? || owner[p].Frame?)
    ensures IsRoot(owner, owner[p].root)
    decreases if owner[p].Frame? then 3 else 2 - owner[p].level
  {
    assert PageOk(pages, owner, p, owner[p]);
    if owner[p].Frame? {
      RootOwned(pages, owner, owner[p].table);
    } else if owner[p].level < 2 {
      RootOwned(pages, owner, owner[p].up);
    }
  }

  /** uvmcreate starts one. */
  lemma BuiltRoot(pages: Pages, owner: Owners, pages': Pages, owner': Owners, root: nat)
    requires TreesOk(pages, owner) && root in owner && owner[root] == Free
    requires owner' == owner[root := Tree(root, 2, 0, root)]
    requires SameLeaves(owner, pages, pages') && Kept(pages, owner, pages', owner')
    ensures Built(pages, owner, pages', owner', root) && NoFrames(owner', root)
  {
    hide TreesOk, Kept, SameLeaves;
    forall p | p in owner ensures if OwnedBy(owner'[p], root) then owner[p].Free? else owner'[p] == owner[p] {
      if OwnedBy(owner[p], root) {
        RootOwned(pages, owner, p);
      }
    }
  }

  lemma Others(owner: Owners, owner': Owners, root: nat, r: nat)
    requires Gave(owner, owner', root) && IsRoot(owner', root) && IsRoot(owner, r)
    ensures r != root && IsRoot(owner', r)
  {
  }

  /** mappages goes on with it. */
  lemma BuiltGrew(pages: Pages, owner: Owners, pages1: Pages, free1: seq<nat>, owner1: Owners, pages2: Pages,
      free2: seq<nat>, owner2: Owners, root: nat, change: map<nat, Pte>)
    requires Built(pages, owner, pages1, owner1, root) && IsRoot(owner1, root)
    requires owner1.Keys == pages1.Keys && owner.Keys == pages.Keys
    requires Grew(root, pages1, free1, owner1, pages2, free2, owner2) && Remap(owner1, root, pages1, pages2, change)
    ensures Built(pages, owner, pages2, owner2, root) && IsRoot(owner2, root)
    ensures forall v: nat | v < MAXVPN ::
      Leaf(pages2, root, v) == if v in change then change[v] else Leaf(pages1, root, v)
    ensures NoFrames(owner1, root) ==> NoFrames(owner2, root)
  {
    hide Leaf;
    forall r, v: nat | IsRoot(owner, r) && v < MAXVPN ensures Leaf(pages2, r, v) == Leaf(pages, r, v) {
      Others(owner, owner1, root, r);
    }
  }

  /** uvmalloc too. */
  lemma BuiltFilled(pages: Pages, owner: Owners, pages1: Pages, owner1: Owners, pages2: Pages, owner2: Owners,
      root: nat,
      lo: nat, n: nat, c: seq<(Pte, seq<nat>)>)
    requires Built(pages, owner, pages1, owner1, root) && IsRoot(owner1, root)
    requires owner1.Keys == pages1.Keys && owner.Keys == pages.Keys
    requires Filled(root, lo, n, c, pages1, owner1, pages2, owner2)
    ensures Built(pages, owner, pages2, owner2, root) && IsRoot(owner2, root)
  {
    hide Leaf, HoldsAt;
    forall r, v: nat | IsRoot(owner, r) && v < MAXVPN ensures Leaf(pages2, r, v) == Leaf(pages, r, v) {
      Others(owner, owner1, root, r);
    }
  }

  /** Tearing it down leads back. */
  lemma TornDown(pages: Pages, owner: Owners, pages1: Pages, owner1: Owners, pages2: Pages, owner2: Owners, root: nat)
    requires Built(pages, owner, pages1, owner1, root) && IsRoot(owner1, root)
    requires owner1.Keys == pages1.Keys && owner.Keys == pages.Keys
    requires owner2 == Released(owner1, root) && OthersSame(owner1, root, pages1, pages2)
    requires Kept(pages1, owner1, pages2, owner2)
    ensures owner2 == owner && SameLeaves(owner, pages, pages2) && Kept(pages, owner, pages2, owner2)
  {
    hide Leaf;
    forall r, v: nat | IsRoot(owner, r) && v < MAXVPN ensures Leaf(pages2, r, v) == Leaf(pages, r, v) {
      Others(owner, owner1, root, r);
    }
  }

  /** Unmapping a page that is no frame keeps it built. */
  lemma BuiltUnmapped(pages: Pages, owner: Owners, pages1: Pages, owner1: Owners, pages2: Pages, root: nat, vpn: nat)
    requires Built(pages, owner, pages1, owner1, root) && IsRoot(owner1, root)
    requires owner1.Keys == pages1.Keys && owner.Keys == pages.Keys
    requires Remap(owner1, root, pages1, pages2, map[vpn := ZERO]) && Kept(pages1, owner1, pages2, owner1)
    ensures Built(pages, owner, pages2, owner1, root)
    ensures forall v: nat | v < MAXVPN :: Leaf(pages2, root, v) == if v == vpn then ZERO else Leaf(pages1, root, v)
  {
    hide Leaf;
    forall r, v: nat | IsRoot(owner, r) && v < MAXVPN ensures Leaf(pages2, r, v) == Leaf(pages, r, v) {
      Others(owner, owner1, root, r);
    }
  }

  function Flags(r: bool, w: bool, x: bool, p: nat): Pte {
    Pte(true, r, w, x, false, 0, p)
  }

  /** The user's pages are frames of their own, in a memory that starts above page 0. */
  ghost predicate Clean(pages: Pages, owner: Owners) {
    U.UserOwned(pages, owner) && 0 !in owner
  }

  /** The two pages at the top are not for the user. */
  predicate Sealed(pages: Pages, root: nat) {
    !Leaf(pages, root, TRAMPOLINE).u && !Leaf(pages, root, TRAPFRAME).u
  }

  lemma SameClean(pages: Pages, pages': Pages, owner: Owners)
    requires SameLeaves(owner, pages, pages')
    ensures Clean(pages, owner) ==> Clean(pages', owner)
  {
    hide Leaf;
  }

  /** A process's page table beside page tables that have it has it too. */
  lemma BuiltClean(pages: Pages, owner: Owners, pages': Pages, owner': Owners, root: nat, n: nat)
    requires Clean(pages, owner) && Built(pages, owner, pages', owner', root) && ProcPages(pages', owner', root, n)
    requires Sealed(pages', root)
    ensures Clean(pages', owner')
  {
    hide Leaf;
    forall r, v: nat | IsRoot(owner', r) && v < MAXVPN && Leaf(pages', r, v).v && Leaf(pages', r, v).u
      ensures Leaf(pages', r, v).ppn != 0 && Backed(owner', Leaf(pages', r, v).ppn, r, v)
    {
      if r == root {
        assert v < n && Unmappable(pages', owner', root, v, true);
      } else {
        assert IsRoot(owner, r) && Leaf(pages', r, v) == Leaf(pages, r, v);
        assert Backed(owner, Leaf(pages, r, v).ppn, r, v);
      }
    }
  }

  lemma Same(pages: Pages, owner: Owners)
    ensures SameLeaves(owner, pages, pages) && Kept(pages, owner, pages, owner)
  {
    hide Leaf;
  }

  lemma KeysSame(pages: Pages, free: seq<nat>, owner: Owners)
    requires MemOk(pages, free, owner)
    ensures owner.Keys == pages.Keys
  {
  }

  /** The end of an error path of proc_pagetable. */
  method Abandon(m: Memory, root: nat, ghost pages0: Pages, ghost owner0: Owners)
    requires m.Valid() && IsRoot(m.owner, root) && (forall v: nat | v < MAXVPN :: !Leaf(m.pages, root, v).v)
    requires owner0.Keys == pages0.Keys && Built(pages0, owner0, m.pages, m.owner, root)
    modifies m
    ensures m.Valid() && m.owner == owner0 && SameLeaves(owner0, pages0, m.pages)
    ensures Kept(pages0, owner0, m.pages, m.owner)
  {
    hide TreesOk, FreeOk, Leaf, Built, Kept, SameLeaves, Released, OthersSame;
    KeysSame(m.pages, m.free, m.owner);
    var ok := UvmFree(m, root, 0);
    TornDown(pages0, owner0, old(m.pages), old(m.owner), m.pages, m.owner, root);
  }

  /** With only the two pages at the top mapped, it is the page table of a process of size 0. */
  lemma ProcEmpty(pages: Pages, owner: Owners, root: nat)
    requires NoFrames(owner, root) && Leaf(pages, root, TRAMPOLINE).v && Leaf(pages, root, TRAPFRAME).v
    requires forall v: nat | v < TRAPFRAME :: !Leaf(pages, root, v).v
    ensures ProcPages(pages, owner, root, 0)
  {
    hide Leaf;
  }

  /** proc_pagetable, in the build without a hardware shadow stack: a page table with the trampoline and
      the trapframe and nothing else, or, when memory runs out, every page back where it was. */
  method ProcPagetable(m: Memory, trampoline: nat, trapframe: nat) returns (root: Option<nat>)
    requires m.Valid()
    modifies m
    ensures m.Valid()
    ensures root.None? ==> m.owner == old(m.owner) && |old(m.free)| < 5
    ensures root.None? ==>
      SameLeaves(old(m.owner), old(m.pages), m.pages) && Kept(old(m.pages), old(m.owner), m.pages, m.owner)
    ensures root.Some? ==>
      IsRoot(m.owner, root.value) && Built(old(m.pages), old(m.owner), m.pages, m.owner, root.value)
    ensures root.Some? ==> ProcPages(m.pages, m.owner, root.value, 0) && |old(m.free)| <= |m.free| + 5
    ensures root.Some? ==> Leaf(m.pages, root.value, TRAMPOLINE) == Pte(true, true, false, true, false, 0, trampoline)
    ensures root.Some? ==> Leaf(m.pages, root.value, TRAPFRAME) == Pte(true, true, true, false, false, 0, trapframe)
    ensures old(Clean(m.pages, m.owner)) ==> Clean(m.pages, m.owner) && (root.Some? ==> Sealed(m.pages, root.value))
  {
    hide TreesOk, FreeOk, Leaf, Grew, Remap, Built, Kept, SameLeaves, NoFrames, ProcPages, Clean;
    KeysSame(m.pages, m.free, m.owner);
    Same(m.pages, m.owner);
    root := m.UvmCreate();
    if root.Some? {
      var r := root.value;
      KeysSame(m.pages, m.free, m.owner);
      BuiltRoot(old(m.pages), old(m.owner), m.pages, m.owner, r);
      var ok := MapTop(m, r, TRAMPOLINE, Flags(true, false, true, trampoline), old(m.pages), old(m.owner));
      if !ok {
        Abandon(m, r, old(m.pages), old(m.owner));
        SameClean(old(m.pages), m.pages, m.owner);
        return None;
      }
      ok := MapTop(m, r, TRAPFRAME, Flags(true, true, false, trapframe), old(m.pages), old(m.owner));
      if !ok {
        UnmapTop(m, r, TRAMPOLINE, old(m.pages), old(m.owner));
        Abandon(m, r, old(m.pages), old(m.owner));
        SameClean(old(m.pages), m.pages, m.owner);
        return None;
      }
      ProcEmpty(m.pages, m.owner, r);
      if old(Clean(m.pages, m.owner)) {
        BuiltClean(old(m.pages), old(m.owner), m.pages, m.owner, r, 0);
      }
    }
  }

  /** mappages of one page that is not mapped yet, in a page table under construction. */
  method MapTop(m: Memory, root: nat, vpn: nat, e: Pte, ghost pages0: Pages, ghost owner0: Owners) returns (ok: bool)
    requires m.Valid() && IsRoot(m.owner, root) && vpn < MAXVPN && e.v && IsLeaf(e) && !Leaf(m.pages, root, vpn).v
    requires owner0.Keys == pages0.Keys && Built(pages0, owner0, m.pages, m.owner, root) && NoFrames(m.owner, root)
    modifies m
    ensures m.Valid() && IsRoot(m.owner, root) && Built(pages0, owner0, m.pages, m.owner, root)
    ensures NoFrames(m.owner, root)
    ensures forall v: nat | v < MAXVPN ::
      Leaf(m.pages, root, v) == if ok && v == vpn then e else old(Leaf(m.pages, root, v))
    ensures |old(m.free)| <= |m.free| + 2 && (!ok ==> |old(m.free)| < 2)
  {
    hide TreesOk, FreeOk, Leaf, Grew, Remap, Built, Kept, SameLeaves, NoFrames;
    KeysSame(m.pages, m.free, m.owner);
    var done, k := m.MapPages(root, vpn, 1, e);
    BuiltGrew(pages0, owner0, old(m.pages), old(m.free), old(m.owner), m.pages, m.free, m.owner, root,
        Range(vpn, k, e));
    ok := done.Ok?;
  }

  /** uvmunmap of one such page. */
  method UnmapTop(m: Memory, root: nat, vpn: nat, ghost pages0: Pages, ghost owner0: Owners)
    requires m.Valid() && IsRoot(m.owner, root) && vpn < MAXVPN && Leaf(m.pages, root, vpn).v
    requires owner0.Keys == pages0.Keys && Built(pages0, owner0, m.pages, m.owner, root) && NoFrames(m.owner, root)
    modifies m
    ensures m.Valid() && m.owner == old(m.owner) && Built(pages0, owner0, m.pages, m.owner, root)
    ensures forall v: nat | v < MAXVPN ::
      Leaf(m.pages, root, v) == if v == vpn then ZERO else old(Leaf(m.pages, root, v))
  {
    hide TreesOk, FreeOk, Leaf, Remap, Built, Kept, SameLeaves, Unowned, Cleared;
    KeysSame(m.pages, m.free, m.owner);
    assert Unmappable(m.pages, m.owner, root, vpn, false);
    var ok, k := m.UvmUnmap(root, vpn, 1, false);
    TopUnmapped(old(m.pages), old(m.owner), m.pages, m.owner, root, vpn);
    BuiltUnmapped(pages0, owner0, old(m.pages), old(m.owner), m.pages, root, vpn);
  }

  // Growing and shrinking.

  /** The entry of a user page that the process may read and write. */
  const USER_PAGE := Pte(true, true, true, false, true, 0, 0)

  /** The size that growproc asks for, in 64 bits. */
  function Asked(sz: nat, n: int): nat
    requires sz < TWO64
  {
    (sz + n) % TWO64
  }

  lemma AskedIs(sz: nat, n: int)
    requires sz <= TRAPFRAME * PGSIZE && -0x8000_0000 <= n < 0x8000_0000
    ensures sz < TWO64 && Asked(sz, n) == if -n <= sz then sz + n else TWO64 + sz + n
    ensures Asked(sz, n) >= sz || n < 0
  {
  }

  lemma SizeOk(sz: nat)
    ensures PagesFor(sz) <= TRAPFRAME <==> sz <= TRAPFRAME * PGSIZE
  {
  }

  /** Growing succeeded, or left the page table as it was. */
  lemma ProcGrew(pages: Pages, owner: Owners, pages': Pages, owner': Owners, root: nat, lo: nat, n: nat,
      c: seq<(Pte, seq<nat>)>, e: Pte)
    requires IsRoot(owner, root) && ProcPages(pages, owner, root, lo) && lo + n <= TRAPFRAME && owner.Keys == pages.Keys
    requires Filled(root, lo, n, c, pages, owner, pages', owner') && (forall i | 0 <= i < |c| :: c[i].0 == e) && e.v
    ensures ProcPages(pages', owner', root, lo + n)
  {
    hide Leaf;
    forall v: nat | v < MAXVPN && !(lo <= v < lo + n) ensures Leaf(pages', root, v) == Leaf(pages, root, v) {
    }
    forall v: nat | v < lo + n ensures Leaf(pages', root, v).v && Unmappable(pages', owner', root, v, true) {
      if v < lo {
        assert Unmappable(pages, owner, root, v, true);
      } else {
        assert HoldsAt(pages', owner', root, lo, v, c);
      }
    }
    forall v: nat | TRAPFRAME <= v < MAXVPN
      ensures Leaf(pages', root, v).v && Unmappable(pages', owner', root, v, false)
    {
      assert Unmappable(pages, owner, root, v, false);
      forall q ensures !Backed(owner', q, root, v) {
        assert !Backed(owner, q, root, v);
      }
    }
  }

  /** Shrinking keeps the rest. */
  lemma ProcShrank(pages: Pages, owner: Owners, pages': Pages, owner': Owners, root: nat, lo: nat, n: nat)
    requires IsRoot(owner, root) && ProcPages(pages, owner, root, lo + n)
    requires owner' == Unowned(owner, root, lo, n) && Remap(owner, root, pages, pages', Cleared(lo, n))
    ensures ProcPages(pages', owner', root, lo) && IsRoot(owner', root)
  {
    hide Leaf;
    forall v: nat | v < MAXVPN
      ensures Leaf(pages', root, v) == if lo <= v < lo + n then ZERO else Leaf(pages, root, v)
    {
    }
    forall v: nat | v < lo ensures Unmappable(pages', owner', root, v, true) {
      assert Unmappable(pages, owner, root, v, true);
    }
    forall v: nat | TRAPFRAME <= v < MAXVPN ensures Unmappable(pages', owner', root, v, false) {
      assert Unmappable(pages, owner, root, v, false);
      forall q ensures !Backed(owner', q, root, v) {
        assert !Backed(owner, q, root, v);
      }
    }
  }

  lemma BuiltShrank(pages: Pages, owner: Owners, pages1: Pages, owner1: Owners, pages2: Pages, owner2: Owners,
      root: nat,
      lo: nat, n: nat)
    requires Built(pages, owner, pages1, owner1, root) && IsRoot(owner1, root)
    requires owner1.Keys == pages1.Keys && owner.Keys == pages.Keys
    requires owner2 == Unowned(owner1, root, lo, n) && Remap(owner1, root, pages1, pages2, Cleared(lo, n))
    requires Kept(pages1, owner1, pages2, owner2)
    ensures Built(pages, owner, pages2, owner2, root)
  {
    hide Leaf;
    forall r, v: nat | IsRoot(owner, r) && v < MAXVPN ensures Leaf(pages2, r, v) == Leaf(pages, r, v) {
      Others(owner, owner1, root, r);
    }
  }

  lemma ProcSize(pages: Pages, owner: Owners, root: nat, n: nat)
    requires ProcPages(pages, owner, root, n)
    ensures n <= TRAPFRAME && (forall v: nat | n <= v < TRAPFRAME :: !Leaf(pages, root, v).v)
    ensures forall v: nat | v < n :: Leaf(pages, root, v).v && Unmappable(pages, owner, root, v, true)
  {
  }

  lemma FilledSame(pages: Pages, owner: Owners, pages': Pages, owner': Owners, root: nat, lo: nat, n: nat,
      c: seq<(Pte, seq<nat>)>)
    requires IsRoot(owner, root) && Filled(root, lo, n, c, pages, owner, pages', owner') && lo + n <= TRAPFRAME
    ensures forall v: nat | v < lo || TRAPFRAME <= v < MAXVPN :: Leaf(pages', root, v) == Leaf(pages, root, v)
  {
    hide Leaf, Took, HoldsAt;
  }

  lemma ClearedSame(pages: Pages, owner: Owners, pages': Pages, root: nat, lo: nat, n: nat)
    requires IsRoot(owner, root) && Remap(owner, root, pages, pages', Cleared(lo, n)) && lo + n <= TRAPFRAME
    ensures forall v: nat | v < lo || TRAPFRAME <= v < MAXVPN :: Leaf(pages', root, v) == Leaf(pages, root, v)
  {
    hide Leaf;
  }

  lemma VacantAbove(pages: Pages, owner: Owners, root: nat, n: nat)
    requires ProcPages(pages, owner, root, n)
    ensures forall v: nat | n <= v < TRAPFRAME :: Vacant(pages, root, v)
  {
    hide Leaf;
  }

  /** A page that growproc adds: the process may read and write it, and it shows zeros. */
  ghost predicate FreshPage(pages: Pages, root: nat, v: nat) {
    var e := Leaf(pages, root, v);
    && e.v && e.r && e.w && !e.x && e.u && e.ppn in pages && pages[e.ppn].Data? && |pages[e.ppn].bytes| == PGSIZE
    && forall i | 0 <= i < PGSIZE :: pages[e.ppn].bytes[i] == 0
  }

  /** The page has the frame it had, with the same bytes. */
  ghost predicate SamePage(pages: Pages, pages': Pages, root: nat, v: nat) {
    var p := Leaf(pages, root, v).ppn;
    Leaf(pages', root, v) == Leaf(pages, root, v) && (p in pages ==> p in pages' && pages'[p] == pages[p])
  }

  lemma FilledFresh(pages: Pages, owner: Owners, pages': Pages, owner': Owners, root: nat, lo: nat, n: nat,
      c: seq<(Pte, seq<nat>)>)
    requires Filled(root, lo, n, c, pages, owner, pages', owner')
    requires forall i | 0 <= i < |c| :: c[i] == (USER_PAGE, Fill(0))
    ensures forall v: nat | lo <= v < lo + n :: FreshPage(pages', root, v)
  {
    hide Leaf, Took, SameBut;
    forall v: nat | lo <= v < lo + n ensures FreshPage(pages', root, v) {
      assert HoldsAt(pages', owner', root, lo, v, c);
    }
  }

  lemma FilledKeeps(pages: Pages, owner: Owners, pages': Pages, owner': Owners, root: nat, lo: nat, n: nat,
      c: seq<(Pte, seq<nat>)>)
    requires IsRoot(owner, root) && ProcPages(pages, owner, root, lo)
    requires Filled(root, lo, n, c, pages, owner, pages', owner')
    ensures forall v: nat | v < lo :: SamePage(pages, pages', root, v)
  {
    hide Leaf, HoldsAt;
    forall v: nat | v < lo ensures SamePage(pages, pages', root, v) {
      assert Unmappable(pages, owner, root, v, true);
    }
  }

  lemma ShrankKeeps(pages: Pages, owner: Owners, pages': Pages, owner': Owners, root: nat, lo: nat, n: nat)
    requires IsRoot(owner, root) && ProcPages(pages, owner, root, lo + n)
    requires owner' == Unowned(owner, root, lo, n) && Remap(owner, root, pages, pages', Cleared(lo, n))
    requires Kept(pages, owner, pages', owner')
    ensures forall v: nat | v < lo :: SamePage(pages, pages', root, v)
  {
    hide Leaf;
    forall v: nat | v < lo ensures SamePage(pages, pages', root, v) {
      assert Unmappable(pages, owner, root, v, true);
      assert Leaf(pages', root, v) == Leaf(pages, root, v);
    }
  }

  lemma NothingChanged(pages: Pages, root: nat)
    ensures forall v: nat :: SamePage(pages, pages, root, v)
  {
    hide Leaf;
  }

  /** The growing half of growproc. */
  method Grow(m: Memory, root: nat, sz: nat, newsz: nat, ghost pages0: Pages, ghost owner0: Owners)
    returns (size: nat, ok: bool)
    requires m.Valid() && IsRoot(m.owner, root) && ProcPages(m.pages, m.owner, root, PagesFor(sz))
    requires sz < newsz && (PagesFor(newsz) <= TRAPFRAME || PagesFor(sz) + |m.free| < TRAPFRAME)
    requires owner0.Keys == pages0.Keys && Built(pages0, owner0, m.pages, m.owner, root)
    modifies m
    ensures m.Valid() && IsRoot(m.owner, root) && ProcPages(m.pages, m.owner, root, PagesFor(size))
    ensures Built(pages0, owner0, m.pages, m.owner, root) && size == if ok then newsz else sz
    ensures !ok ==> |old(m.free)| < 3 * (PagesFor(newsz) - PagesFor(sz))
    ensures forall v: nat | v < PagesFor(sz) || TRAPFRAME <= v < MAXVPN ::
      Leaf(m.pages, root, v) == old(Leaf(m.pages, root, v))
    ensures forall v: nat | v < PagesFor(sz) :: SamePage(old(m.pages), m.pages, root, v)
    ensures forall v: nat | PagesFor(sz) <= v < PagesFor(size) :: FreshPage(m.pages, root, v)
  {
    hide TreesOk, FreeOk, Leaf, Built, ProcPages, Filled, Copies, Unmappable, Fill, FreshPage, SamePage;
    KeysSame(m.pages, m.free, m.owner);
    ProcSize(m.pages, m.owner, root, PagesFor(sz));
    ghost var lo, n := PagesFor(sz), PagesFor(newsz) - PagesFor(sz);
    ghost var c := Copies(n, USER_PAGE, Fill(0));
    VacantAbove(m.pages, m.owner, root, PagesFor(sz));
    var got, done := m.UvmAlloc(root, sz, newsz, USER_PAGE);
    ok := got != 0;
    size := if ok then got else sz;
    ProcGrew(old(m.pages), old(m.owner), m.pages, m.owner, root, lo, if ok then n else 0, c, USER_PAGE);
    BuiltFilled(pages0, owner0, old(m.pages), old(m.owner), m.pages, m.owner, root, lo, if ok then n else 0, c);
    FilledSame(old(m.pages), old(m.owner), m.pages, m.owner, root, lo, if ok then n else 0, c);
    FilledKeeps(old(m.pages), old(m.owner), m.pages, m.owner, root, lo, if ok then n else 0, c);
    FilledFresh(old(m.pages), old(m.owner), m.pages, m.owner, root, lo, if ok then n else 0, c);
  }

  /** The shrinking half. */
  method Shrink(m: Memory, root: nat, sz: nat, newsz: nat, ghost pages0: Pages, ghost owner0: Owners)
    returns (size: nat)
    requires m.Valid() && IsRoot(m.owner, root) && ProcPages(m.pages, m.owner, root, PagesFor(sz))
    requires owner0.Keys == pages0.Keys && Built(pages0, owner0, m.pages, m.owner, root)
    modifies m
    ensures m.Valid() && IsRoot(m.owner, root) && ProcPages(m.pages, m.owner, root, PagesFor(size))
    ensures Built(pages0, owner0, m.pages, m.owner, root) && size == if newsz < sz then newsz else sz
    ensures forall v: nat | v < PagesFor(size) || TRAPFRAME <= v < MAXVPN ::
      Leaf(m.pages, root, v) == old(Leaf(m.pages, root, v))
    ensures forall v: nat | v < PagesFor(size) :: SamePage(old(m.pages), m.pages, root, v)
  {
    hide TreesOk, FreeOk, Leaf, Built, ProcPages, Remap, Cleared, Unowned, Unmappable, Kept, SamePage;
    KeysSame(m.pages, m.free, m.owner);
    NothingChanged(m.pages, root);
    ProcSize(m.pages, m.owner, root, PagesFor(sz));
    var ok;
    size, ok := m.UvmDealloc(root, sz, newsz);
    ghost var lo, n := PagesFor(newsz), PagesFor(sz) - PagesFor(newsz);
    if newsz < sz {
      ProcShrank(old(m.pages), old(m.owner), m.pages, m.owner, root, lo, n);
      BuiltShrank(pages0, owner0, old(m.pages), old(m.owner), m.pages, m.owner, root, lo, n);
      ClearedSame(old(m.pages), old(m.owner), m.pages, root, lo, n);
      ShrankKeeps(old(m.pages), old(m.owner), m.pages, m.owner, root, lo, n);
    }
  }

  /** growproc. It fails only when memory runs out; a size below 0 wraps around and changes nothing. */
  method GrowProc(m: Memory, root: nat, sz: nat, n: int, ghost pages0: Pages, ghost owner0: Owners)
    returns (size: nat, ok: bool)
    requires m.Valid() && IsRoot(m.owner, root) && ProcPages(m.pages, m.owner, root, PagesFor(sz))
    requires -0x8000_0000 <= n < 0x8000_0000
    requires sz + n <= TRAPFRAME * PGSIZE || PagesFor(sz) + |m.free| < TRAPFRAME
    requires owner0.Keys == pages0.Keys && Built(pages0, owner0, m.pages, m.owner, root)
    modifies m
    ensures m.Valid() && IsRoot(m.owner, root) && ProcPages(m.pages, m.owner, root, PagesFor(size))
    ensures Built(pages0, owner0, m.pages, m.owner, root)
    ensures size == if ok && 0 <= sz + n then sz + n else sz
    ensures !ok ==> 0 < n && |old(m.free)| < 3 * (PagesFor(sz + n) - PagesFor(sz))
    ensures forall v: nat | (v < PagesFor(sz) && v < PagesFor(size)) || TRAPFRAME <= v < MAXVPN ::
      Leaf(m.pages, root, v) == old(Leaf(m.pages, root, v))
    ensures forall v: nat | v < PagesFor(sz) && v < PagesFor(size) :: SamePage(old(m.pages), m.pages, root, v)
    ensures forall v: nat | PagesFor(sz) <= v < PagesFor(size) :: FreshPage(m.pages, root, v)
    ensures Clean(pages0, owner0) && Sealed(old(m.pages), root) ==> Clean(m.pages, m.owner) && Sealed(m.pages, root)
  {
    hide TreesOk, FreeOk, Leaf, Built, ProcPages, Clean, FreshPage, SamePage;
    NothingChanged(m.pages, root);
    ProcSize(m.pages, m.owner, root, PagesFor(sz));
    SizeOk(sz);
    AskedIs(sz, n);
    size, ok := sz, true;
    if n > 0 {
      SizeOk(sz + n);
      size, ok := Grow(m, root, sz, sz + n, pages0, owner0);
    } else if n < 0 {
      size := Shrink(m, root, sz, Asked(sz, n), pages0, owner0);
    }
    if Clean(pages0, owner0) && Sealed(old(m.pages), root) {
      BuiltClean(pages0, owner0, m.pages, m.owner, root, PagesFor(size));
    }
  }

  /** What happens to an address space: sbrk, or a copyout by the kernel. */
  datatype Act = Resize(n: int) | Put(va: nat, bytes: seq<nat>)

  /** The user's pages are frames, and the free ones are others. */
  lemma FramesFit(pages: Pages, free: seq<nat>, owner: Owners, root: nat, n: nat)
    requires FreeOk(free, owner) && ProcPages(pages, owner, root, n)
    ensures n + |free| <= |owner|
  {
    hide Leaf, ProcPages;
    ProcSize(pages, owner, root, n);
    var frames, rest := Frames(pages, root, n), Members(free);
    FramesAre(pages, owner, root, n);
    NoDupCard(free);
    assert frames !! rest && frames + rest <= owner.Keys;
    CardSubset(frames + rest, owner.Keys);
    assert |owner| == |owner.Keys| && |frames + rest| == |frames| + |rest|;
  }

  ghost function Frames(pages: Pages, root: nat, n: nat): set<nat> {
    if n == 0 then {} else Frames(pages, root, n - 1) + {Leaf(pages, root, n - 1).ppn}
  }

  lemma {:induction false} FramesAre(pages: Pages, owner: Owners, root: nat, n: nat)
    requires forall v: nat | v < n :: Leaf(pages, root, v).v && Unmappable(pages, owner, root, v, true)
    ensures |Frames(pages, root, n)| == n
    ensures forall p | p in Frames(pages, root, n) ::
      p in owner && owner[p].Frame? && owner[p].root == root && owner[p].vpn < n
  {
    hide Leaf;
    if n > 0 {
      FramesAre(pages, owner, root, n - 1);
      assert Unmappable(pages, owner, root, n - 1, true);
    }
  }

  lemma {:induction false} NoDupCard(s: seq<nat>)
    requires NoDup(s)
    ensures |Members(s)| == |s|
  {
    if s != [] {
      var n := |s| - 1;
      NoDupCard(s[..n]);
      assert Members(s) == Members(s[..n]) + {s[n]};
    }
  }

  ghost function Members(s: seq<nat>): set<nat> {
    set p | p in s
  }

  /** A copyout leaves it built. */
  lemma BuiltWritten(pages: Pages, owner: Owners, pages1: Pages, owner1: Owners, pages2: Pages, root: nat, n: nat)
    requires Built(pages, owner, pages1, owner1, root) && IsRoot(owner1, root) && owner.Keys == pages.Keys
    requires ProcPages(pages1, owner1, root, n) && Sealed(pages1, root) && owner1.Keys == pages1.Keys
    requires SameLeaves(owner1, pages1, pages2) && U.OnlyFrames(owner1, root, pages1, pages2)
    ensures Built(pages, owner, pages2, owner1, root) && ProcPages(pages2, owner1, root, n) && Sealed(pages2, root)
  {
    hide Leaf;
    forall r, v: nat | IsRoot(owner, r) && v < MAXVPN ensures Leaf(pages2, r, v) == Leaf(pages, r, v) {
      Others(owner, owner1, root, r);
    }
    forall v: nat, b | v < MAXVPN && Unmappable(pages1, owner1, root, v, b)
      ensures Unmappable(pages2, owner1, root, v, b)
    {
    }
  }

  /** One act on the address space. */
  method Perform(m: Memory, root: nat, sz: nat, act: Act, ghost pages0: Pages, ghost owner0: Owners)
    returns (size: nat)
    requires m.Valid() && IsRoot(m.owner, root) && ProcPages(m.pages, m.owner, root, PagesFor(sz))
    requires Clean(m.pages, m.owner) && Sealed(m.pages, root) && Clean(pages0, owner0)
    requires (act.Resize? ==> -0x8000_0000 <= act.n < 0x8000_0000) && |m.owner| < TRAPFRAME
    requires owner0.Keys == pages0.Keys && Built(pages0, owner0, m.pages, m.owner, root)
    modifies m
    ensures m.Valid() && IsRoot(m.owner, root) && ProcPages(m.pages, m.owner, root, PagesFor(size))
    ensures Clean(m.pages, m.owner) && Sealed(m.pages, root) && Built(pages0, owner0, m.pages, m.owner, root)
  {
    hide TreesOk, FreeOk, Leaf, Built, ProcPages, SameLeaves, U.OnlyFrames, U.UserOwned, Sealed, U.Wrote, U.Writable;
    size := sz;
    match act {
      case Resize(n) =>
        FramesFit(m.pages, m.free, m.owner, root, PagesFor(sz));
        var ok;
        size, ok := GrowProc(m, root, sz, n, pages0, owner0);
      case Put(va, bytes) =>
        KeysSame(m.pages, m.free, m.owner);
        var ok, k := U.CopyOut(m, root, va, bytes);
        BuiltWritten(pages0, owner0, old(m.pages), m.owner, m.pages, root, PagesFor(sz));
    }
  }

  lemma SameRam(pages: Pages, owner: Owners, pages': Pages, owner': Owners, root: nat)
    requires Built(pages, owner, pages', owner', root)
    ensures owner'.Keys == owner.Keys && |owner'| == |owner|
  {
    assert |owner'| == |owner'.Keys| && |owner| == |owner.Keys|;
  }

  /** The whole life of an address space: it is created, grows and shrinks any number of times, some of them
      without success, the kernel copies bytes into it, and it is freed. Every page that was free is free again,
      and only those; every other page table and page is as it was. */
  method Life(m: Memory, trampoline: nat, trapframe: nat, acts: seq<Act>) returns (born: bool)
    requires m.Valid() && Clean(m.pages, m.owner) && |m.owner| < TRAPFRAME
    requires forall i | 0 <= i < |acts| && acts[i].Resize? :: -0x8000_0000 <= acts[i].n < 0x8000_0000
    modifies m
    ensures m.Valid() && m.owner == old(m.owner) && multiset(m.free) == multiset(old(m.free))
    ensures SameLeaves(old(m.owner), old(m.pages), m.pages) && Kept(old(m.pages), old(m.owner), m.pages, m.owner)
    ensures Clean(m.pages, m.owner)
    ensures 5 <= |old(m.free)| ==> born
  {
    hide TreesOk, FreeOk, Leaf, Built, ProcPages, SameLeaves, Kept, Released, OthersSame, Clean, Sealed;
    KeysSame(m.pages, m.free, m.owner);
    var root := ProcPagetable(m, trampoline, trapframe);
    born := root.Some?;
    if born {
      var sz: nat, i := 0, 0;
      SameRam(old(m.pages), old(m.owner), m.pages, m.owner, root.value);
      while i < |acts|
        invariant i <= |acts| && m.Valid() && IsRoot(m.owner, root.value) && m.owner.Keys == old(m.owner.Keys)
        invariant ProcPages(m.pages, m.owner, root.value, PagesFor(sz))
        invariant Clean(m.pages, m.owner) && Sealed(m.pages, root.value)
        invariant Built(old(m.pages), old(m.owner), m.pages, m.owner, root.value)
      {
        SameRam(old(m.pages), old(m.owner), m.pages, m.owner, root.value);
        sz := Perform(m, root.value, sz, acts[i], old(m.pages), old(m.owner));
        SameRam(old(m.pages), old(m.owner), m.pages, m.owner, root.value);
        i := i + 1;
      }
      KeysSame(m.pages, m.free, m.owner);
      ghost var pages1, owner1 := m.pages, m.owner;
      var ok := ProcFreePagetable(m, root.value, sz);
      TornDown(old(m.pages), old(m.owner), pages1, owner1, m.pages, m.owner, root.value);
    }
    SameClean(old(m.pages), m.pages, m.owner);
    SameFree(old(m.free), m.free, m.owner);
  }

  /** A machine from boot: kinit, and one address space after another. */
  method Boot(ram: Pages, end: nat, ramEnd: nat, trampoline: nat, trapframe: nat, lives: seq<seq<Act>>)
    returns (m: Memory)
    requires end > 0 && forall p :: p in ram <==> end <= p * PGSIZE < ramEnd
    requires |ram| < TRAPFRAME
    requires forall k, i | 0 <= k < |lives| && 0 <= i < |lives[k]| && lives[k][i].Resize? ::
      -0x8000_0000 <= lives[k][i].n < 0x8000_0000
    ensures fresh(m) && m.Valid() && m.owner.Keys == ram.Keys
    ensures forall p | p in m.owner :: p in m.free <==> (p + 1) * PGSIZE <= ramEnd
  {
    hide TreesOk, FreeOk, SameLeaves, Kept, Clean;
    m := new Memory(ram, end, ramEnd);
    ghost var owner0 := m.owner;
    FreshClean(m.pages, m.owner, end, ramEnd);
    var k := 0;
    while k < |lives|
      invariant k <= |lives| && fresh(m) && m.Valid() && m.owner == owner0 && Clean(m.pages, m.owner)
    {
      var born := Life(m, trampoline, trapframe, lives[k]);
      k := k + 1;
    }
    FreeAre(m.free, m.owner);
  }

  lemma FreshClean(pages: Pages, owner: Owners, end: nat, ramEnd: nat)
    requires end > 0 && forall p | p in owner :: end <= p * PGSIZE
    requires forall p | p in owner :: owner[p].Free? || owner[p].Kernel?
    ensures Clean(pages, owner)
  {
    U.FreshOwned(pages, owner);
  }

  lemma FreeAre(free: seq<nat>, owner: Owners)
    requires FreeOk(free, owner)
    ensures forall p | p in owner :: p in free <==> owner[p].Free?
  {
  }

  /** The free list is determined by the owners, up to its order. */
  lemma SameFree(free: seq<nat>, free': seq<nat>, owner: Owners)
    requires FreeOk(free, owner) && FreeOk(free', owner)
    ensures multiset(free) == multiset(free')
  {
    forall p ensures multiset(free)[p] == multiset(free')[p] {
      Once(free, p);
      Once(free', p);
    }
  }

  lemma {:induction false} Once(s: seq<nat>, p: nat)
    requires NoDup(s)
    ensures multiset(s)[p] == if p in s then 1 else 0
  {
    if s != [] {
      Once(s[1..], p);
      assert s == [s[0]] + s[1..];
    }
  }
}
