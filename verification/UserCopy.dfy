/**
 copyout and copyin of kernel/vm.c: bytes between the kernel and a user address space, page by page,
 against the flat meaning of the page table.
 */
module UserCopy {
  import opened Common
  import opened PageTable

  /** The byte that user address va of page table root shows, if it is mapped for the user. */
  function ByteAt(pages: Pages, root: nat, va: nat): Option<nat> {
    var leaf := Leaf(pages, root, va / PGSIZE);
    if va / PGSIZE < MAXVPN && leaf.v && leaf.u && IsData(pages, leaf.ppn)
      then Some(pages[leaf.ppn].bytes[va % PGSIZE]) else None
  }

  /** copyout's test on the page of address va. */
  predicate Writable(pages: Pages, root: nat, va: nat) {
    var leaf := Leaf(pages, root, va / PGSIZE);
    va / PGSIZE < MAXVPN && leaf.v && leaf.u && leaf.w
  }

  /** copyin's test: walkaddr does not return 0. */
  predicate Readable(pages: Pages, root: nat, va: nat) {
    var leaf := Leaf(pages, root, va / PGSIZE);
    va / PGSIZE < MAXVPN && leaf.v && leaf.u && leaf.ppn != 0
  }

  /** User pages are frames of their own, above physical address 0. */
  ghost predicate UserOwned(pages: Pages, owner: Owners) {
    forall r, v: nat | IsRoot(owner, r) && v < MAXVPN && Leaf(pages, r, v).v && Leaf(pages, r, v).u ::
      Leaf(pages, r, v).ppn != 0 && Backed(owner, Leaf(pages, r, v).ppn, r, v)
  }

  /** A memory without page tables has it. */
  lemma FreshOwned(pages: Pages, owner: Owners)
    requires forall p | p in owner :: owner[p].Free? || owner[p].Kernel?
    ensures UserOwned(pages, owner)
  {
  }

  /** uvmalloc and uvmcopy keep it, whether they succeed or not, in a memory that starts above page 0. */
  lemma FilledOwned(root: nat, lo: nat, n: nat, c: seq<(Pte, seq<nat>)>, pages: Pages, owner: Owners, pages': Pages,
      owner': Owners)
    requires UserOwned(pages, owner) && 0 !in owner && Filled(root, lo, n, c, pages, owner, pages', owner')
    ensures UserOwned(pages', owner')
  {
    hide Leaf;
    forall r, v: nat | IsRoot(owner', r) && v < MAXVPN && Leaf(pages', r, v).v && Leaf(pages', r, v).u
      ensures Leaf(pages', r, v).ppn != 0 && Backed(owner', Leaf(pages', r, v).ppn, r, v)
    {
      assert IsRoot(owner, r);
      if r == root && lo <= v < lo + n {
        assert HoldsAt(pages', owner', root, lo, v, c);
      } else {
        assert Leaf(pages', r, v) == Leaf(pages, r, v);
      }
    }
  }

  /** Only frames of page table root have changed. */
  ghost predicate OnlyFrames(owner: Owners, root: nat, before: Pages, after: Pages) {
    && after.Keys == before.Keys
    && forall p | p in before && !(p in owner && owner[p].Frame? && owner[p].root == root) :: after[p] == before[p]
  }

  /** User memory is as before but for the bytes src at va of page table root. */
  ghost predicate Wrote(owner: Owners, root: nat, va: nat, src: seq<nat>, before: Pages, after: Pages) {
    forall r, a: nat | IsRoot(owner, r) ::
      ByteAt(after, r, a) == if r == root && va <= a < va + |src| then Some(src[a - va]) else ByteAt(before, r, a)
  }

  /** A frame's bytes may change. */
  lemma DataOk(pages: Pages, owner: Owners, p: nat, bytes: seq<nat>)
    requires TreesOk(pages, owner) && p in owner && owner[p].Frame? && |bytes| == PGSIZE
    ensures TreesOk(pages[p := Data(bytes)], owner)
  {
    var pages' := pages[p := Data(bytes)];
    forall q | q in owner ensures PageOk(pages', owner, q, owner[q]) {
      assert PageOk(pages, owner, q, owner[q]);
      if owner[q].Tree? {
        forall i: nat | i < ENTRIES ensures EntryOk(pages', owner, q, i, owner[q]) {
          assert EntryOk(pages, owner, q, i, owner[q]);
        }
      }
    }
  }

  /** It shows in one page of one address space only. */
  lemma DataAt(pages: Pages, owner: Owners, root: nat, va: nat, bytes: seq<nat>, r: nat, a: nat)
    requires TreesOk(pages, owner) && UserOwned(pages, owner) && IsRoot(owner, root) && IsRoot(owner, r)
    requires Writable(pages, root, va) && |bytes| == PGSIZE
    ensures Backed(owner, Leaf(pages, root, va / PGSIZE).ppn, root, va / PGSIZE)
    ensures var pages' := pages[Leaf(pages, root, va / PGSIZE).ppn := Data(bytes)];
      ByteAt(pages', r, a) == if r == root && a / PGSIZE == va / PGSIZE then Some(bytes[a % PGSIZE])
        else ByteAt(pages, r, a)
  {
    hide TreesOk;
    var p := Leaf(pages, root, va / PGSIZE).ppn;
    if a / PGSIZE < MAXVPN {
      RetagLeaf(pages, owner, p, Data(bytes), r, a / PGSIZE);
      assert Leaf(pages, r, a / PGSIZE).v && Leaf(pages, r, a / PGSIZE).u ==>
        Backed(owner, Leaf(pages, r, a / PGSIZE).ppn, r, a / PGSIZE);
    }
  }

  /** copyout: the longest run of bytes whose pages the user may write; all of src, or failure. */
  method CopyOut(m: Memory, root: nat, dstva: nat, src: seq<nat>) returns (ok: bool, ghost k: nat)
    requires m.Valid() && IsRoot(m.owner, root) && UserOwned(m.pages, m.owner)
    modifies m`pages
    ensures m.Valid() && UserOwned(m.pages, m.owner) && SameLeaves(m.owner, old(m.pages), m.pages)
    ensures OnlyFrames(m.owner, root, old(m.pages), m.pages)
    ensures k <= |src| && (ok <==> k == |src|) && Wrote(m.owner, root, dstva, src[..k], old(m.pages), m.pages)
    ensures forall a | dstva <= a < dstva + k :: Writable(old(m.pages), root, a)
    ensures !ok ==> !Writable(old(m.pages), root, dstva + k)
  {
    hide MemOk, UserOwned, SameLeaves, Wrote, Leaf, Patch;
    WroteNone(m.owner, root, dstva, m.pages);
    assert src[..0] == [];
    ok, k := true, 0;
    var va, done := dstva, 0;
    while done < |src| && ok
      invariant k == done <= |src| && (done < |src| ==> va == dstva + done)
      invariant m.Valid() && UserOwned(m.pages, m.owner) && SameLeaves(m.owner, old(m.pages), m.pages)
      invariant OnlyFrames(m.owner, root, old(m.pages), m.pages)
      invariant Wrote(m.owner, root, dstva, src[..k], old(m.pages), m.pages)
      invariant forall a | dstva <= a < dstva + k :: Writable(old(m.pages), root, a)
      invariant !ok ==> k < |src| && !Writable(old(m.pages), root, dstva + k)
      decreases |src| - done, ok
    {
      var vpn := va / PGSIZE;
      ghost var pages1 := m.pages;
      ok := vpn < MAXVPN;
      if ok {
        var e := LookUp(m, root, vpn);
        SameAt(m.owner, old(m.pages), m.pages, root, vpn);
        ok := e.v && e.u && e.w;
        if ok {
          var n := Min(PGSIZE - va % PGSIZE, |src| - done);
          FrameData(m.pages, m.free, m.owner, root, va);
          WriteStep(old(m.pages), pages1, m.free, m.owner, root, dstva, src, done, n, va);
          m.pages := m.pages[e.ppn := Data(Patch(m.pages[e.ppn].bytes, va % PGSIZE, src[done..done + n]))];
          done := done + n;
          k := done;
          va := (vpn + 1) * PGSIZE;
        }
      }
    }
  }

  /** walk without allocating, and the entry it finds. */
  method LookUp(m: Memory, root: nat, vpn: nat) returns (e: Pte)
    requires vpn < MAXVPN
    ensures e == Leaf(m.pages, root, vpn)
  {
    LeafAt(m.pages, root, vpn);
    var t := Find(m, root, vpn);
    e := if t.Some? then Entry(m.pages, t.value, vpn % ENTRIES) else ZERO;
  }

  /** The loop of walk when it may not allocate. */
  method Find(m: Memory, root: nat, vpn: nat) returns (t: Option<nat>)
    requires vpn < MAXVPN
    ensures t == Level0(m.pages, root, vpn)
  {
    t := Some(root);
    var level := 2;
    while level > 0 && t.Some?
      invariant 0 <= level <= 2 && (t.Some? ==> t == Node(m.pages, root, vpn, level))
      invariant t.None? ==> Level0(m.pages, root, vpn) == None
      decreases level
    {
      var e := Entry(m.pages, t.value, Index(vpn, level));
      t := if e.v then Some(e.ppn) else None;
      level := level - 1;
    }
  }

  lemma WroteNone(owner: Owners, root: nat, va: nat, pages: Pages)
    ensures Wrote(owner, root, va, [], pages, pages) && SameLeaves(owner, pages, pages)
  {
  }

  lemma FrameData(pages: Pages, free: seq<nat>, owner: Owners, root: nat, va: nat)
    requires MemOk(pages, free, owner) && UserOwned(pages, owner) && IsRoot(owner, root) && Writable(pages, root, va)
    ensures var p := Leaf(pages, root, va / PGSIZE).ppn; Backed(owner, p, root, va / PGSIZE) && IsData(pages, p)
  {
    hide TreesOk;
    FrameUnique(pages, owner, root, va / PGSIZE, Leaf(pages, root, va / PGSIZE).ppn);
  }

  /** The page that one turn of copyout's loop stores. */
  function Stored(pages: Pages, root: nat, va: nat, src: seq<nat>): (page: Page)
    requires IsData(pages, Leaf(pages, root, va / PGSIZE).ppn) && va % PGSIZE + |src| <= PGSIZE
    ensures page.Data? && |page.bytes| == PGSIZE
  {
    Data(Patch(pages[Leaf(pages, root, va / PGSIZE).ppn].bytes, va % PGSIZE, src))
  }

  lemma WriteStep(before: Pages, pages: Pages, free: seq<nat>, owner: Owners, root: nat, dstva: nat, src: seq<nat>,
      done: nat, n: nat, va: nat)
    requires MemOk(pages, free, owner) && UserOwned(pages, owner) && IsRoot(owner, root)
    requires SameLeaves(owner, before, pages) && done < |src|
    requires Wrote(owner, root, dstva, src[..done], before, pages) && va == dstva + done && Writable(pages, root, va)
    requires n == Min(PGSIZE - va % PGSIZE, |src| - done) && IsData(pages, Leaf(pages, root, va / PGSIZE).ppn)
    ensures var pages' := pages[Leaf(pages, root, va / PGSIZE).ppn := Stored(pages, root, va, src[done..done + n])];
      && MemOk(pages', free, owner) && UserOwned(pages', owner) && SameLeaves(owner, before, pages')
      && Wrote(owner, root, dstva, src[..done + n], before, pages')
    ensures forall a: nat | va <= a < dstva + (done + n) :: Writable(before, root, a)
    ensures done + n < |src| ==> (va / PGSIZE + 1) * PGSIZE == dstva + (done + n)
  {
    hide TreesOk, FreeOk, Leaf, Stored;
    var p, page := Leaf(pages, root, va / PGSIZE).ppn, Stored(pages, root, va, src[done..done + n]);
    DataAt(pages, owner, root, va, page.bytes, root, va);
    DataOk(pages, owner, p, page.bytes);
    var pages' := pages[p := page];
    forall r, v: nat | IsRoot(owner, r) && v < MAXVPN ensures Leaf(pages', r, v) == Leaf(pages, r, v) {
      RetagLeaf(pages, owner, p, page, r, v);
    }
    assert UserOwned(pages', owner);
    WroteMore(before, pages, owner, root, dstva, src, done, n, va);
    forall a: nat | va <= a < dstva + (done + n) ensures Writable(before, root, a) {
      assert a / PGSIZE == va / PGSIZE;
    }
  }

  lemma WroteMore(before: Pages, pages: Pages, owner: Owners, root: nat, dstva: nat, src: seq<nat>, done: nat, n: nat,
      va: nat)
    requires TreesOk(pages, owner) && UserOwned(pages, owner) && IsRoot(owner, root) && done < |src|
    requires Wrote(owner, root, dstva, src[..done], before, pages) && va == dstva + done && Writable(pages, root, va)
    requires n == Min(PGSIZE - va % PGSIZE, |src| - done) && IsData(pages, Leaf(pages, root, va / PGSIZE).ppn)
    ensures Wrote(owner, root, dstva, src[..done + n], before,
        pages[Leaf(pages, root, va / PGSIZE).ppn := Stored(pages, root, va, src[done..done + n])])
  {
    hide TreesOk, Leaf, UserOwned, ByteAt;
    var pages' := pages[Leaf(pages, root, va / PGSIZE).ppn := Stored(pages, root, va, src[done..done + n])];
    forall r, a: nat | IsRoot(owner, r)
      ensures ByteAt(pages', r, a) == if r == root && dstva <= a < dstva + |src[..done + n]|
        then Some(src[..done + n][a - dstva]) else ByteAt(before, r, a)
    {
      DataAt(pages, owner, root, va, Stored(pages, root, va, src[done..done + n]).bytes, r, a);
      assert ByteAt(pages, r, a) == if r == root && dstva <= a < dstva + done then Some(src[..done][a - dstva])
        else ByteAt(before, r, a);
      if r == root && a / PGSIZE == va / PGSIZE {
        StoredAt(pages, root, va, src[done..done + n], a);
      }
    }
  }

  lemma StoredAt(pages: Pages, root: nat, va: nat, src: seq<nat>, a: nat)
    requires IsData(pages, Leaf(pages, root, va / PGSIZE).ppn) && va % PGSIZE + |src| <= PGSIZE
    requires a / PGSIZE == va / PGSIZE
    requires Leaf(pages, root, va / PGSIZE).v && Leaf(pages, root, va / PGSIZE).u && va / PGSIZE < MAXVPN
    ensures Some(Stored(pages, root, va, src).bytes[a % PGSIZE]) == if va <= a < va + |src| then Some(src[a - va])
      else ByteAt(pages, root, a)
  {
    assert a - a % PGSIZE == va - va % PGSIZE;
  }

  /** copyin: fails exactly when some page of the range is not readable. */
  method CopyIn(m: Memory, root: nat, srcva: nat, len: nat) returns (ok: bool, dst: seq<nat>)
    requires m.Valid() && IsRoot(m.owner, root) && UserOwned(m.pages, m.owner)
    ensures ok <==> forall a | srcva <= a < srcva + len :: Readable(m.pages, root, a)
    ensures ok ==> |dst| == len && Read(m.pages, root, srcva, dst)
  {
    hide MemOk, UserOwned, Leaf, ByteAt, Readable;
    ok, dst := true, [];
    var va := srcva;
    while |dst| < len && ok
      invariant |dst| <= len && (|dst| < len ==> va == srcva + |dst|)
      invariant forall a | srcva <= a < srcva + |dst| :: Readable(m.pages, root, a)
      invariant Read(m.pages, root, srcva, dst)
      invariant !ok ==> |dst| < len && !Readable(m.pages, root, srcva + |dst|)
      decreases len - |dst|, ok
    {
      var vpn := va / PGSIZE;
      ok := vpn < MAXVPN;
      if ok {
        var e := LookUp(m, root, vpn);
        ok := e.v && e.u && e.ppn != 0;
        ReadableIs(m.pages, root, va);
        if ok {
          var n := Min(PGSIZE - va % PGSIZE, len - |dst|);
          ReadStep(m.pages, m.free, m.owner, root, va, n);
          dst := dst + m.pages[e.ppn].bytes[va % PGSIZE..va % PGSIZE + n];
          va := (vpn + 1) * PGSIZE;
        }
      } else {
        ReadableIs(m.pages, root, va);
      }
    }
  }

  /** dst is what user memory shows from va on. */
  ghost predicate Read(pages: Pages, root: nat, va: nat, dst: seq<nat>) {
    forall a: nat | va <= a < va + |dst| :: ByteAt(pages, root, a) == Some(dst[a - va])
  }

  lemma ReadableIs(pages: Pages, root: nat, va: nat)
    ensures var leaf := Leaf(pages, root, va / PGSIZE);
      Readable(pages, root, va) <==> va / PGSIZE < MAXVPN && leaf.v && leaf.u && leaf.ppn != 0
  {
  }

  lemma ReadStep(pages: Pages, free: seq<nat>, owner: Owners, root: nat, va: nat, n: nat)
    requires MemOk(pages, free, owner) && UserOwned(pages, owner) && IsRoot(owner, root) && Readable(pages, root, va)
    requires va % PGSIZE + n <= PGSIZE
    ensures IsData(pages, Leaf(pages, root, va / PGSIZE).ppn)
    ensures Read(pages, root, va, pages[Leaf(pages, root, va / PGSIZE).ppn].bytes[va % PGSIZE..va % PGSIZE + n])
    ensures forall a: nat | va <= a < va + n :: Readable(pages, root, a)
  {
    hide TreesOk, Leaf;
    FrameUnique(pages, owner, root, va / PGSIZE, Leaf(pages, root, va / PGSIZE).ppn);
    forall a: nat | va <= a < va + n ensures Readable(pages, root, a) && a / PGSIZE == va / PGSIZE {
    }
  }

  /** copyin after a successful copyout returns the same bytes. */
  lemma RoundTrip(owner: Owners, root: nat, va: nat, src: seq<nat>, before: Pages, after: Pages, dst: seq<nat>)
    requires IsRoot(owner, root) && Wrote(owner, root, va, src, before, after) && |dst| == |src|
    requires Read(after, root, va, dst)
    ensures dst == src
  {
    hide ByteAt;
    forall i: nat | i < |src| ensures dst[i] == src[i] {
      assert ByteAt(after, root, va + i) == Some(dst[i]);
    }
  }

  /** And that copyin succeeds: an address that the user may write is one that the user may read. */
  lemma WritableIsReadable(pages: Pages, owner: Owners, root: nat, va: nat)
    requires UserOwned(pages, owner) && IsRoot(owner, root) && Writable(pages, root, va)
    ensures Readable(pages, root, va)
  {
  }
}
