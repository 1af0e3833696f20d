/**
 Tearing a page table down: freewalk and uvmfree of kernel/vm.c, and proc_freepagetable of
 kernel/proc.c. Every page that the page table owned ends on the free list, once.
 */
module PageFree {
  import opened PageTable

  /** The key, n levels up. */
  function Up(key: nat, n: nat): nat {
    if n == 0 then key else if n == 1 then key / ENTRIES else key / ENTRIES / ENTRIES
  }

  /** Table p is in the subtree under the place (level, key) of root's tree. */
  predicate Under(owner: Owners, p: nat, root: nat, level: nat, key: nat) {
    p in owner && owner[p].Tree? && owner[p].root == root && owner[p].level <= level <= 2 &&
      Up(owner[p].key, level - owner[p].level) == key
  }

  /** Table p is in one of the first n subtrees under the place (level, key). */
  predicate UnderFirst(owner: Owners, p: nat, root: nat, level: nat, key: nat, n: nat) {
    && p in owner && owner[p].Tree? && owner[p].root == root && owner[p].level < level <= 2
    && key * ENTRIES <= Up(owner[p].key, level - 1 - owner[p].level) < key * ENTRIES + n
  }

  /** One table at each place. */
  lemma PlaceUnique(pages: Pages, owner: Owners, root: nat, level: nat, key: nat, t: nat, t': nat)
    requires TreesOk(pages, owner) && InTree(owner, t, root, level, key) && InTree(owner, t', root, level, key)
    ensures t == t'
    decreases 2 - level
  {
    assert PageOk(pages, owner, t, owner[t]) && PageOk(pages, owner, t', owner[t']);
    if level < 2 {
      PlaceUnique(pages, owner, root, level + 1, key / ENTRIES, owner[t].up, owner[t'].up);
    }
  }

  /** A table in the i-th subtree exists only if entry i points to that subtree. */
  lemma {:induction false} SubtreeLinked(pages: Pages, owner: Owners, root: nat, level: nat, key: nat, t: nat, i: nat,
      p: nat)
    requires TreesOk(pages, owner) && InTree(owner, t, root, level, key) && 0 < level && i < ENTRIES
    requires Under(owner, p, root, level - 1, key * ENTRIES + i)
    ensures Entry(pages, t, i).v
    decreases level - owner[p].level
  {
    assert PageOk(pages, owner, t, owner[t]) && PageOk(pages, owner, p, owner[p]);
    if owner[p].level == level - 1 {
      PlaceUnique(pages, owner, root, level, key, t, owner[p].up);
    } else {
      assert owner[p].level == 0 && level == 2;
      SubtreeLinked(pages, owner, root, level, key, t, i, owner[p].up);
    }
  }

  /** No level-0 table of root has a valid entry. */
  ghost predicate NoLeaves(pages: Pages, owner: Owners, root: nat) {
    forall p, i: nat | p in owner && owner[p].Tree? && owner[p].root == root && owner[p].level == 0 && i < ENTRIES ::
      !Entry(pages, p, i).v
  }

  /** Table p is in the i-th subtree under the place (level, key). */
  predicate Below(owner: Owners, p: nat, root: nat, level: nat, key: nat, i: nat) {
    level > 0 && Under(owner, p, root, level - 1, key * ENTRIES + i)
  }

  /** Entry i of t: nothing at level 0, otherwise the i-th subtree or nothing. */
  lemma EntryThere(pages: Pages, owner: Owners, t: nat, root: nat, level: nat, key: nat, i: nat)
    requires TreesOk(pages, owner) && InTree(owner, t, root, level, key) && level <= 2 && i < ENTRIES
    requires NoLeaves(pages, owner, root)
    ensures var e := Entry(pages, t, i);
      if e.v then level > 0 && !IsLeaf(e) && InTree(owner, e.ppn, root, level - 1, key * ENTRIES + i)
      else forall p :: !Below(owner, p, root, level, key, i)
  {
    EntryFacts(pages, owner, t, i);
    if !Entry(pages, t, i).v {
      forall p ensures !Below(owner, p, root, level, key, i) {
        if Below(owner, p, root, level, key, i) {
          SubtreeLinked(pages, owner, root, level, key, t, i, p);
        }
      }
    }
  }

  lemma SplitFirst(owner: Owners, root: nat, level: nat, key: nat, i: nat)
    requires level <= 2 && i < ENTRIES
    ensures forall p ::
      UnderFirst(owner, p, root, level, key, i + 1) <==>
      UnderFirst(owner, p, root, level, key, i) || Below(owner, p, root, level, key, i)
    ensures forall p ::
      Below(owner, p, root, level, key, i) ==>
      !UnderFirst(owner, p, root, level, key, i) && Under(owner, p, root, level, key)
  {
  }

  /** All 512 subtrees and the table itself are the tree under a place. */
  lemma SplitWhole(owner: Owners, pages: Pages, t: nat, root: nat, level: nat, key: nat)
    requires TreesOk(pages, owner) && InTree(owner, t, root, level, key) && level <= 2
    ensures forall p :: Under(owner, p, root, level, key) <==> p == t || UnderFirst(owner, p, root, level, key, ENTRIES)
    ensures !UnderFirst(owner, t, root, level, key, ENTRIES)
  {
    forall p | Under(owner, p, root, level, key) && owner[p].level == level ensures p == t {
      PlaceUnique(pages, owner, root, level, key, p, t);
    }
  }

  /** freewalk has dealt with the first i entries of t: their subtrees are on the free list, and
      nothing else has changed but those entries. */
  ghost predicate Walked(owner: Owners, t: nat, root: nat, level: nat, key: nat, i: nat, pages0: Pages,
                         before: Pages, free: seq<nat>, pages: Pages, free': seq<nat>, pushed: seq<nat>)
  {
    && pages.Keys == pages0.Keys == before.Keys && IsTable(pages, t)
    && (forall j: nat | i <= j < ENTRIES :: Entry(pages, t, j) == Entry(pages0, t, j))
    && free' == pushed + free && NoDup(pushed)
    && (forall p :: p in pushed <==> UnderFirst(owner, p, root, level, key, i))
    && (forall p | Under(owner, p, root, level, key) && p != t && !UnderFirst(owner, p, root, level, key, i) ::
      p in pages && p in pages0 && pages[p] == pages0[p])
    && (forall p | p in before && !Under(owner, p, root, level, key) :: p in pages && pages[p] == before[p])
  }

  /** The tables under a place have gone to the free list, once each; no other page has changed. */
  ghost predicate Gone(owner: Owners, root: nat, level: nat, key: nat, before: Pages, free: seq<nat>, pages: Pages,
      free': seq<nat>, pushed: seq<nat>) {
    && free' == pushed + free && NoDup(pushed) && (forall p :: p in pushed <==> Under(owner, p, root, level, key))
    && pages.Keys == before.Keys
    && (forall p | p in before && !Under(owner, p, root, level, key) :: p in pages && pages[p] == before[p])
  }

  /** The subtree under a place is as it was. */
  ghost predicate Intact(owner: Owners, root: nat, level: nat, key: nat, pages0: Pages, pages: Pages) {
    pages.Keys == pages0.Keys && forall p | Under(owner, p, root, level, key) ::
      p in pages && p in pages0 && pages[p] == pages0[p]
  }

  lemma WalkedNone(owner: Owners, t: nat, root: nat, level: nat, key: nat, pages0: Pages, pages: Pages, free: seq<nat>)
    requires TreesOk(pages0, owner) && InTree(owner, t, root, level, key) && level <= 2
    requires Intact(owner, root, level, key, pages0, pages)
    ensures Walked(owner, t, root, level, key, 0, pages0, pages, free, pages, free, [])
  {
    assert PageOk(pages0, owner, t, owner[t]);
    assert Under(owner, t, root, level, key);
  }

  lemma WalkedEmpty(owner: Owners, t: nat, root: nat, level: nat, key: nat, i: nat, pages0: Pages, before: Pages,
      free: seq<nat>, pages: Pages, free': seq<nat>, pushed: seq<nat>)
    requires Walked(owner, t, root, level, key, i, pages0, before, free, pages, free', pushed) && level <= 2
    requires i < ENTRIES
    requires forall p :: !Below(owner, p, root, level, key, i)
    ensures Walked(owner, t, root, level, key, i + 1, pages0, before, free, pages, free', pushed)
  {
    hide Under, UnderFirst, Below;
    SplitFirst(owner, root, level, key, i);
  }

  lemma WalkedReady(owner: Owners, t: nat, root: nat, level: nat, key: nat, i: nat, pages0: Pages, before: Pages,
      free: seq<nat>, pages: Pages, free': seq<nat>, pushed: seq<nat>)
    requires Walked(owner, t, root, level, key, i, pages0, before, free, pages, free', pushed) && 0 < level <= 2
    requires i < ENTRIES
    requires InTree(owner, t, root, level, key)
    ensures Intact(owner, root, level - 1, key * ENTRIES + i, pages0, pages)
  {
    forall p | Under(owner, p, root, level - 1, key * ENTRIES + i)
      ensures p in pages && p in pages0 && pages[p] == pages0[p]
    {
      assert Below(owner, p, root, level, key, i);
      SplitFirst(owner, root, level, key, i);
    }
  }

  lemma BelowIs(owner: Owners, root: nat, level: nat, key: nat, i: nat, t: nat, level': nat, key': nat)
    requires 0 < level <= 2 && level' == level - 1 && key' == key * ENTRIES + i && InTree(owner, t, root, level, key)
    ensures forall p :: Below(owner, p, root, level, key, i) <==> Under(owner, p, root, level', key')
    ensures !Below(owner, t, root, level, key, i) && Under(owner, t, root, level, key)
  {
  }

  lemma WalkedChild(owner: Owners, t: nat, root: nat, level: nat, key: nat, i: nat, pages0: Pages, before: Pages,
      free: seq<nat>,
                    pages: Pages, free': seq<nat>, pushed: seq<nat>, pages2: Pages, free2: seq<nat>, more: seq<nat>)
    requires Walked(owner, t, root, level, key, i, pages0, before, free, pages, free', pushed) && 0 < level <= 2
    requires i < ENTRIES
    requires InTree(owner, t, root, level, key)
    requires Gone(owner, root, level - 1, key * ENTRIES + i, pages, free', pages2, free2, more)
    ensures IsTable(pages2, t)
    ensures Walked(owner, t, root, level, key, i + 1, pages0, before, free, SetEntry(pages2, t, i, ZERO), free2,
        more + pushed)
  {
    hide Under, UnderFirst, Below;
    SplitFirst(owner, root, level, key, i);
    BelowIs(owner, root, level, key, i, t, level - 1, key * ENTRIES + i);
    forall a, b | 0 <= a < b < |more + pushed| ensures (more + pushed)[a] != (more + pushed)[b] {
      if a < |more| <= b {
        assert more[a] in more && pushed[b - |more|] in pushed;
      }
    }
  }

  lemma WalkedAll(owner: Owners, t: nat, root: nat, level: nat, key: nat, pages0: Pages, before: Pages,
      free: seq<nat>, pages: Pages, free': seq<nat>, pushed: seq<nat>, page: Page)
    requires Walked(owner, t, root, level, key, ENTRIES, pages0, before, free, pages, free', pushed) && level <= 2
    requires TreesOk(pages0, owner) && InTree(owner, t, root, level, key)
    ensures t in pages && Gone(owner, root, level, key, before, free, pages[t := page], [t] + free', [t] + pushed)
  {
    hide Under, UnderFirst, TreesOk;
    SplitWhole(owner, pages0, t, root, level, key);
    assert [t] + (pushed + free) == ([t] + pushed) + free;
  }

  /** freewalk on the table t at a place of root's tree. `pages0` is memory before the first call. */
  method FreeWalk(m: Memory, t: nat, ghost root: nat, ghost level: nat, ghost key: nat, ghost pages0: Pages)
    returns (ok: bool, ghost pushed: seq<nat>)
    requires TreesOk(pages0, m.owner) && InTree(m.owner, t, root, level, key) && level <= 2
    requires NoLeaves(pages0, m.owner, root)
    requires Intact(m.owner, root, level, key, pages0, m.pages)
    modifies m`pages, m`free
    ensures ok && Gone(m.owner, root, level, key, old(m.pages), old(m.free), m.pages, m.free, pushed)
    decreases level
  {
    hide TreesOk, NoLeaves, Walked, Gone, Intact, Below;
    WalkedNone(m.owner, t, root, level, key, pages0, m.pages, m.free);
    ok, pushed := true, [];
    var i := 0;
    while i < ENTRIES
      invariant 0 <= i <= ENTRIES && ok
      invariant Walked(m.owner, t, root, level, key, i, pages0, old(m.pages), old(m.free), m.pages, m.free, pushed)
    {
      EntryThere(pages0, m.owner, t, root, level, key, i);
      EntryLeft(m.owner, t, root, level, key, i, pages0, old(m.pages), old(m.free), m.pages, m.free, pushed);
      ghost var pages1, free1 := m.pages, m.free;
      var e := Entry(m.pages, t, i);
      if e.v && !IsLeaf(e) {
        WalkedReady(m.owner, t, root, level, key, i, pages0, old(m.pages), old(m.free), pages1, free1, pushed);
        ghost var more;
        ok, more := FreeWalk(m, e.ppn, root, level - 1, key * ENTRIES + i, pages0);
        WalkedChild(m.owner, t, root, level, key, i, pages0, old(m.pages), old(m.free), pages1, free1, pushed, m.pages,
            m.free, more);
        m.pages := SetEntry(m.pages, t, i, ZERO);
        pushed := more + pushed;
      } else if e.v {
        ok := false;
      } else {
        WalkedEmpty(m.owner, t, root, level, key, i, pages0, old(m.pages), old(m.free), pages1, free1, pushed);
      }
      i := i + 1;
    }
    WalkedAll(m.owner, t, root, level, key, pages0, old(m.pages), old(m.free), m.pages, m.free, pushed, Data(Fill(1)));
    var freed := m.Push(t);
    pushed := [t] + pushed;
  }

  lemma EntryLeft(owner: Owners, t: nat, root: nat, level: nat, key: nat, i: nat, pages0: Pages, before: Pages,
      free: seq<nat>, pages: Pages, free': seq<nat>, pushed: seq<nat>)
    requires Walked(owner, t, root, level, key, i, pages0, before, free, pages, free', pushed) && i < ENTRIES
    ensures Entry(pages, t, i) == Entry(pages0, t, i)
  {
  }

  predicate OwnedBy(o: Owner, root: nat) {
    (o.Tree? || o.Frame?) && o.root == root
  }

  /** The owners after everything that root's page table owned is free. */
  ghost function Released(owner: Owners, root: nat): Owners {
    map p | p in owner :: if OwnedBy(owner[p], root) then Free else owner[p]
  }

  /** Every other page table means what it meant. */
  ghost predicate OthersSame(owner: Owners, root: nat, before: Pages, after: Pages) {
    forall r, v: nat | IsRoot(owner, r) && r != root && v < MAXVPN :: Leaf(after, r, v) == Leaf(before, r, v)
  }

  lemma NoLeavesFrom(pages: Pages, owner: Owners, root: nat)
    requires TreesOk(pages, owner) && forall v: nat | v < MAXVPN :: !Leaf(pages, root, v).v
    ensures NoLeaves(pages, owner, root) && forall p | p in owner && owner[p].Frame? :: owner[p].root != root
  {
    forall p, i: nat | p in owner && owner[p].Tree? && owner[p].root == root && owner[p].level == 0 && i < ENTRIES
      ensures !Entry(pages, p, i).v
    {
      assert PageOk(pages, owner, p, owner[p]);
      var v := owner[p].key * ENTRIES + i;
      assert v / ENTRIES == owner[p].key && v % ENTRIES == i;
      TableUnique(pages, owner, root, v, p);
      assert !Leaf(pages, root, v).v;
    }
    forall p | p in owner && owner[p].Frame? ensures owner[p].root != root {
      TreeIsUnder(pages, owner, root, p);
      if owner[p].root == root {
        FrameUnique(pages, owner, root, owner[p].vpn, p);
      }
    }
  }

  /** The tables of a page table are the ones under its root. */
  lemma TreeIsUnder(pages: Pages, owner: Owners, root: nat, p: nat)
    requires TreesOk(pages, owner)
    ensures Under(owner, p, root, 2, 0) <==> p in owner && owner[p].Tree? && owner[p].root == root
    ensures p in owner && owner[p].Frame? ==> owner[p].vpn < MAXVPN
  {
    if p in owner {
      assert PageOk(pages, owner, p, owner[p]);
      if owner[p].Frame? {
        assert PageOk(pages, owner, owner[p].table, owner[owner[p].table]);
      }
    }
  }

  lemma ReleasedPage(pages0: Pages, owner: Owners, root: nat, pages: Pages, p: nat)
    requires TreesOk(pages0, owner) && p in owner && !OwnedBy(owner[p], root)
    requires forall q | q in pages0 && q in owner && !(owner[q].Tree? && owner[q].root == root) ::
      q in pages && pages[q] == pages0[q]
    ensures PageOk(pages, Released(owner, root), p, owner[p])
  {
    assert PageOk(pages0, owner, p, owner[p]);
    if owner[p].Tree? {
      forall i: nat | i < ENTRIES ensures EntryOk(pages, Released(owner, root), p, i, owner[p]) {
        assert EntryOk(pages0, owner, p, i, owner[p]);
      }
    }
  }

  lemma ReleasedOk(pages0: Pages, free0: seq<nat>, owner: Owners, root: nat, pages: Pages, free: seq<nat>,
      pushed: seq<nat>)
    requires MemOk(pages0, free0, owner) && Gone(owner, root, 2, 0, pages0, free0, pages, free, pushed)
    requires forall p | p in owner && owner[p].Frame? :: owner[p].root != root
    ensures MemOk(pages, free, Released(owner, root)) && OthersSame(owner, root, pages0, pages)
    ensures Kept(pages0, owner, pages, Released(owner, root))
  {
    hide TreesOk, PageOk, Leaf, Under;
    var owner' := Released(owner, root);
    forall p ensures Under(owner, p, root, 2, 0) <==> p in owner && owner[p].Tree? && owner[p].root == root {
      TreeIsUnder(pages0, owner, root, p);
    }
    forall p | p in owner' ensures PageOk(pages, owner', p, owner'[p]) {
      if !OwnedBy(owner[p], root) {
        ReleasedPage(pages0, owner, root, pages, p);
      } else {
        FreePage(pages, owner', p);
      }
    }
    ReleasedTrees(pages0, owner, root, pages);
    ReleasedFree(free0, owner, root, pushed);
    forall r, v: nat | IsRoot(owner, r) && r != root && v < MAXVPN ensures Leaf(pages, r, v) == Leaf(pages0, r, v) {
      ReleasedLeaf(pages0, owner, root, pages, r, v);
    }
  }

  lemma FreePage(pages: Pages, owner: Owners, p: nat)
    ensures PageOk(pages, owner, p, Free)
  {
  }

  lemma ReleasedTrees(pages0: Pages, owner: Owners, root: nat, pages: Pages)
    requires TreesOk(pages0, owner) && pages.Keys == pages0.Keys
    requires forall p | p in Released(owner, root) :: PageOk(pages, Released(owner, root), p, Released(owner, root)[p])
    ensures TreesOk(pages, Released(owner, root))
  {
  }

  lemma ReleasedFree(free: seq<nat>, owner: Owners, root: nat, pushed: seq<nat>)
    requires FreeOk(free, owner) && NoDup(pushed) && forall p :: p in pushed <==> p in owner && OwnedBy(owner[p], root)
    ensures FreeOk(pushed + free, Released(owner, root))
  {
    forall a, b | 0 <= a < b < |pushed + free| ensures (pushed + free)[a] != (pushed + free)[b] {
      if a < |pushed| <= b {
        assert pushed[a] in pushed && free[b - |pushed|] in free;
      }
    }
  }

  lemma ReleasedLeaf(pages0: Pages, owner: Owners, root: nat, pages: Pages, r: nat, v: nat)
    requires TreesOk(pages0, owner) && IsRoot(owner, r) && r != root && v < MAXVPN
    requires forall q | q in pages0 && q in owner && !(owner[q].Tree? && owner[q].root == root) ::
      q in pages && pages[q] == pages0[q]
    ensures Leaf(pages, r, v) == Leaf(pages0, r, v)
  {
    PathOk(pages0, owner, r, v);
  }

  /** Page table root maps exactly the n pages from 0 on, each to a frame of its own. */
  ghost predicate UserPages(pages: Pages, owner: Owners, root: nat, n: nat) {
    && n <= MAXVPN
    && (forall v: nat | v < n :: Leaf(pages, root, v).v && Unmappable(pages, owner, root, v, true))
    && (forall v: nat | n <= v < MAXVPN :: !Leaf(pages, root, v).v)
  }

  /** uvmfree: freewalk meets no leaf, and every page the page table owned is free. */
  method UvmFree(m: Memory, root: nat, sz: nat) returns (ok: bool)
    requires m.Valid() && IsRoot(m.owner, root) && UserPages(m.pages, m.owner, root, PagesFor(sz))
    modifies m
    ensures ok && m.Valid() && m.owner == Released(old(m.owner), root)
    ensures OthersSame(old(m.owner), root, old(m.pages), m.pages) && Kept(old(m.pages), old(m.owner), m.pages, m.owner)
  {
    hide TreesOk, FreeOk, Leaf, Unmappable, Remap, Unowned, Kept, Cleared, Gone, Intact, NoLeaves, Released, OthersSame;
    ok := true;
    Untouched(m.pages, m.owner, root);
    if sz > 0 {
      ghost var k;
      ok, k := m.UvmUnmap(root, 0, PagesFor(sz), true);
    }
    ghost var pages1, free1, owner1 := m.pages, m.free, m.owner;
    AllCleared(old(m.pages), old(m.owner), pages1, owner1, root, PagesFor(sz));
    NoLeavesFrom(pages1, owner1, root);
    ghost var pushed;
    ok, pushed := FreeWalk(m, root, root, 2, 0, pages1);
    ReleasedOk(pages1, free1, owner1, root, m.pages, m.free, pushed);
    FreedAll(old(m.pages), old(m.owner), pages1, owner1, root, PagesFor(sz), m.pages);
    m.owner := Released(owner1, root);
  }

  lemma Untouched(pages: Pages, owner: Owners, root: nat)
    ensures Remap(owner, root, pages, pages, Cleared(0, 0))
    ensures owner == Unowned(owner, root, 0, 0) && Kept(pages, owner, pages, owner)
  {
    hide Leaf;
  }

  lemma AllCleared(pages: Pages, owner: Owners, pages1: Pages, owner1: Owners, root: nat, n: nat)
    requires IsRoot(owner, root) && UserPages(pages, owner, root, n) && Remap(owner, root, pages, pages1, Cleared(0, n))
    requires owner1 == Unowned(owner, root, 0, n) && TreesOk(pages1, owner1)
    ensures IsRoot(owner1, root) && Intact(owner1, root, 2, 0, pages1, pages1)
    ensures forall v: nat | v < MAXVPN :: !Leaf(pages1, root, v).v
  {
    hide Leaf;
  }

  lemma FreedAll(pages: Pages, owner: Owners, pages1: Pages, owner1: Owners, root: nat, n: nat, pages2: Pages)
    requires Remap(owner, root, pages, pages1, Cleared(0, n)) && owner1 == Unowned(owner, root, 0, n)
    requires Kept(pages, owner, pages1, owner1)
    requires OthersSame(owner1, root, pages1, pages2) && Kept(pages1, owner1, pages2, Released(owner1, root))
    ensures Released(owner1, root) == Released(owner, root)
    ensures OthersSame(owner, root, pages, pages2) && Kept(pages, owner, pages2, Released(owner, root))
  {
    hide Leaf;
    forall r, v: nat | IsRoot(owner, r) && r != root && v < MAXVPN ensures Leaf(pages2, r, v) == Leaf(pages, r, v) {
      assert IsRoot(owner1, r);
    }
  }

  /** The two pages at the top of every user address space, not owned by it. */
  const TRAMPOLINE: nat := MAXVPN - 1
  const TRAPFRAME: nat := MAXVPN - 2

  /** A process's page table: its user pages, the trampoline and the trapframe, and nothing else. */
  ghost predicate ProcPages(pages: Pages, owner: Owners, root: nat, n: nat) {
    && n <= TRAPFRAME
    && (forall v: nat | v < n :: Leaf(pages, root, v).v && Unmappable(pages, owner, root, v, true))
    && (forall v: nat | n <= v < TRAPFRAME :: !Leaf(pages, root, v).v)
    && (forall v: nat | TRAPFRAME <= v < MAXVPN :: Leaf(pages, root, v).v && Unmappable(pages, owner, root, v, false))
  }

  /** proc_freepagetable, in the build without a hardware shadow stack. */
  method ProcFreePagetable(m: Memory, root: nat, sz: nat) returns (ok: bool)
    requires m.Valid() && IsRoot(m.owner, root) && ProcPages(m.pages, m.owner, root, PagesFor(sz))
    modifies m
    ensures ok && m.Valid() && m.owner == Released(old(m.owner), root)
    ensures OthersSame(old(m.owner), root, old(m.pages), m.pages) && Kept(old(m.pages), old(m.owner), m.pages, m.owner)
  {
    hide TreesOk, FreeOk, Leaf, Unmappable, Remap, Unowned, Kept, Cleared, Released, OthersSame;
    ghost var n := PagesFor(sz);
    ghost var k;
    ok, k := m.UvmUnmap(root, TRAMPOLINE, 1, false);
    ghost var pages1, owner1 := m.pages, m.owner;
    TopUnmapped(old(m.pages), old(m.owner), pages1, owner1, root, TRAMPOLINE);
    ok, k := m.UvmUnmap(root, TRAPFRAME, 1, false);
    TopUnmapped(pages1, owner1, m.pages, m.owner, root, TRAPFRAME);
    BothUnmapped(old(m.pages), old(m.owner), pages1, m.pages, m.owner, root, n);
    ghost var pages2, owner2 := m.pages, m.owner;
    ok := UvmFree(m, root, sz);
    SameAfter(old(m.pages), old(m.owner), pages1, pages2, m.pages, m.owner, root);
  }

  /** Unmapping a page that is not a frame changes no owner. */
  lemma TopUnmapped(pages: Pages, owner: Owners, pages1: Pages, owner1: Owners, root: nat, vpn: nat)
    requires IsRoot(owner, root) && vpn < MAXVPN && Leaf(pages, root, vpn).v
    requires Unmappable(pages, owner, root, vpn, false)
    requires owner1 == Unowned(owner, root, vpn, 1) && Remap(owner, root, pages, pages1, Cleared(vpn, 1))
    requires Kept(pages, owner, pages1, owner1)
    ensures owner1 == owner && Remap(owner, root, pages, pages1, map[vpn := ZERO])
    ensures forall v: nat | v < MAXVPN && v != vpn :: Leaf(pages1, root, v) == Leaf(pages, root, v)
    ensures forall v: nat, b | v < MAXVPN && v != vpn && Unmappable(pages, owner, root, v, b) ::
      Unmappable(pages1, owner1, root, v, b)
  {
    hide Leaf;
    forall p | p in owner && owner[p].Frame? && owner[p].root == root ensures owner[p].vpn != vpn {
      assert !Backed(owner, p, root, vpn);
    }
    assert Cleared(vpn, 1) == map[vpn := ZERO];
  }

  lemma BothUnmapped(pages: Pages, owner: Owners, pages1: Pages, pages2: Pages, owner2: Owners, root: nat, n: nat)
    requires IsRoot(owner, root) && ProcPages(pages, owner, root, n) && owner2 == owner
    requires Remap(owner, root, pages, pages1, map[TRAMPOLINE := ZERO])
    requires Remap(owner, root, pages1, pages2, map[TRAPFRAME := ZERO])
    ensures UserPages(pages2, owner2, root, n)
  {
    hide Leaf;
    forall v: nat | v < MAXVPN ensures Leaf(pages2, root, v) == if v >= TRAPFRAME then ZERO else Leaf(pages, root, v) {
      assert Leaf(pages1, root, v) == if v == TRAMPOLINE then ZERO else Leaf(pages, root, v);
    }
    forall v: nat | v < n ensures Unmappable(pages2, owner2, root, v, true) {
      assert Unmappable(pages, owner, root, v, true);
    }
  }

  lemma SameAfter(pages: Pages, owner: Owners, pages1: Pages, pages2: Pages, pages3: Pages, owner3: Owners, root: nat)
    requires Remap(owner, root, pages, pages1, map[TRAMPOLINE := ZERO])
    requires Remap(owner, root, pages1, pages2, map[TRAPFRAME := ZERO])
    requires Kept(pages, owner, pages1, owner) && Kept(pages1, owner, pages2, owner)
    requires owner3 == Released(owner, root) && OthersSame(owner, root, pages2, pages3)
    requires Kept(pages2, owner, pages3, owner3)
    ensures OthersSame(owner, root, pages, pages3) && Kept(pages, owner, pages3, owner3)
  {
    hide Leaf;
    forall r, v: nat | IsRoot(owner, r) && r != root && v < MAXVPN ensures Leaf(pages3, r, v) == Leaf(pages, r, v) {
      assert Leaf(pages1, r, v) == Leaf(pages, r, v) && Leaf(pages2, r, v) == Leaf(pages1, r, v);
    }
  }
}
