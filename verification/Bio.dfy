/**
 The buffer cache of kernel/bio.c: NBUF buffers on a doubly linked list kept in least-recently-used
 order, reference counts, and one disk.

 Buffers are indices into `buf`; the last index is the list head. A zeroed buffer has device 0, and
 no disk block has device 0. `None` where the source panics.
 */
module Bio {
  import opened Common

  type Words = seq<int>
  type Id = (nat, nat)

  datatype Buf = Buf(valid: bool, dev: nat, blockno: nat, locked: bool, refcnt: nat, prev: nat, next: nat,
      data: Words) {
    function Key(): Id { (dev, blockno) }
  }

  ghost function After(n: nat, i: nat): (k: nat)
    requires i < n
    ensures k < n
  {
    if i + 1 < n then i + 1 else 0
  }

  ghost predicate Distinct(ring: seq<nat>) {
    forall i, j | 0 <= i < j < |ring| :: ring[i] != ring[j]
  }

  ghost predicate LinkedAt(s: seq<Buf>, ring: seq<nat>, i: nat)
    requires i < |ring| && forall k | 0 <= k < |ring| :: ring[k] < |s|
  {
    s[ring[i]].next == ring[After(|ring|, i)] && s[ring[After(|ring|, i)]].prev == ring[i]
  }

  /** The next and prev links run through `ring` both ways, closing the circle. */
  ghost predicate Ring(s: seq<Buf>, ring: seq<nat>) {
    && |ring| >= 1 && Distinct(ring)
    && (forall k | 0 <= k < |ring| :: ring[k] < |s|)
    && forall i: nat | i < |ring| :: LinkedAt(s, ring, i)
  }

  /** Every number below n exactly once. */
  ghost predicate Permutation(order: seq<nat>, n: nat) {
    && |order| == n && Distinct(order)
    && (forall k | 0 <= k < n :: order[k] < n)
    && (forall i: nat | i < n :: i in order)
  }

  /** b is unused, and everything used longer ago is in use. */
  ghost predicate LeastRecentUnused(s: seq<Buf>, order: seq<nat>, b: nat)
    requires forall k | 0 <= k < |order| :: order[k] < |s|
  {
    exists k ::
      0 <= k < |order| && order[k] == b && s[b].refcnt == 0 && forall j | k < j < |order| :: s[order[j]].refcnt > 0
  }

  lemma OldestUnused(s: seq<Buf>, order: seq<nat>, head: nat, k: nat)
    requires (forall j | 0 <= j < |order| :: order[j] < |s|) && head < |s| && 0 < k <= |order|
    requires var ring := [head] + order;
      s[ring[k]].refcnt == 0 && forall j | k < j < |ring| :: s[ring[j]].refcnt != 0
    ensures ([head] + order)[k] == order[k - 1] && LeastRecentUnused(s, order, order[k - 1])
  {
    var ring := [head] + order;
    forall j | k - 1 < j < |order| ensures s[order[j]].refcnt > 0 {
      assert ring[j + 1] == order[j];
    }
  }

  lemma NoneUnused(s: seq<Buf>, order: seq<nat>, head: nat)
    requires (forall j | 0 <= j < |order| :: order[j] < |s|) && head < |s|
    requires forall i: nat | i + 1 < |s| :: i in order
    requires var ring := [head] + order; forall j | 0 < j < |ring| :: s[ring[j]].refcnt != 0
    ensures forall i: nat | i + 1 < |s| :: s[i].refcnt > 0
  {
    var ring := [head] + order;
    forall i: nat | i + 1 < |s| ensures s[i].refcnt > 0 {
      assert i in order;
      var j :| 0 <= j < |order| && order[j] == i;
      assert ring[j + 1] == i;
    }
  }

  /** A buffer without its links. */
  ghost function Bare(b: Buf): Buf {
    b.(prev := 0, next := 0)
  }

  /** brelse, first half: take b off the list. */
  function Unlink(s: seq<Buf>, b: nat): (r: seq<Buf>)
    requires b < |s| && s[b].next < |s| && s[b].prev < |s|
    ensures |r| == |s| && forall i | 0 <= i < |s| :: Bare(r[i]) == Bare(s[i])
  {
    var s1 := s[s[b].next := s[s[b].next].(prev := s[b].prev)];
    s1[s[b].prev := s1[s[b].prev].(next := s1[b].next)]
  }

  /** brelse, second half, and binit: put b right after the head. */
  function PushFront(s: seq<Buf>, head: nat, b: nat): (r: seq<Buf>)
    requires b < |s| && head < |s| && s[head].next < |s| && b != head
    ensures |r| == |s| && forall i | 0 <= i < |s| :: Bare(r[i]) == Bare(s[i])
  {
    var s1 := s[b := s[b].(next := s[head].next, prev := head)];
    var s2 := s1[s1[head].next := s1[s1[head].next].(prev := b)];
    s2[head := s2[head].(next := b)]
  }

  lemma UnlinkRing(s: seq<Buf>, ring: seq<nat>, k: nat)
    requires Ring(s, ring) && 1 <= k < |ring|
    ensures s[ring[k]].next < |s| && s[ring[k]].prev < |s|
    ensures Ring(Unlink(s, ring[k]), ring[..k] + ring[k + 1..])
  {
    hide Unlink;
    assert LinkedAt(s, ring, k) && LinkedAt(s, ring, k - 1);
    var s', ring' := Unlink(s, ring[k]), ring[..k] + ring[k + 1..];
    assert forall i | 0 <= i < |ring'| :: ring'[i] == ring[if i < k then i else i + 1];
    forall i: nat | i < |ring'| ensures LinkedAt(s', ring', i) {
      UnlinkAt(s, ring, k, i);
    }
  }

  /** The links between neighbours that stay, and between those that become neighbours. */
  lemma UnlinkAt(s: seq<Buf>, ring: seq<nat>, k: nat, i: nat)
    requires Ring(s, ring) && 1 <= k < |ring| && i < |ring| - 1 && s[ring[k]].next < |s| && s[ring[k]].prev < |s|
    ensures var j := After(|ring| - 1, i);
      var p, q, s' := ring[if i < k then i else i + 1], ring[if j < k then j else j + 1], Unlink(s, ring[k]);
      s'[p].next == q && s'[q].prev == p
  {
    assert LinkedAt(s, ring, k) && LinkedAt(s, ring, k - 1);
    assert LinkedAt(s, ring, if i < k then i else i + 1);
  }

  lemma PushFrontRing(s: seq<Buf>, ring: seq<nat>, b: nat)
    requires Ring(s, ring) && b < |s| && forall k | 0 <= k < |ring| :: ring[k] != b
    ensures s[ring[0]].next < |s|
    ensures Ring(PushFront(s, ring[0], b), [ring[0], b] + ring[1..])
  {
    assert LinkedAt(s, ring, 0);
    var s', ring' := PushFront(s, ring[0], b), [ring[0], b] + ring[1..];
    forall i: nat | i < |ring'| ensures LinkedAt(s', ring', i) {
      if i >= 2 {
        assert LinkedAt(s, ring, i - 1);
      }
    }
  }

  ghost predicate CachedAt(s: seq<Buf>, i: nat, id: Id) {
    i + 1 < |s| && s[i].dev != 0 && s[i].Key() == id
  }

  ghost predicate Cached(s: seq<Buf>, id: Id) {
    exists i: nat :: CachedAt(s, i, id)
  }

  /** One buffer against the disk: `view` is the latest content of each block, `refs` counts the
      references to it, `held` are the blocks whose buffer lock is taken. */
  ghost predicate BufOk(b: Buf, disk: map<Id, Words>, view: map<Id, Words>, refs: map<Id, nat>, held: set<Id>)
    requires view.Keys == disk.Keys && refs.Keys == disk.Keys
  {
    if b.dev == 0 then b.refcnt == 0 && !b.locked
    else
      && b.Key() in disk && refs[b.Key()] == b.refcnt
      && (b.locked <==> b.Key() in held) && (b.locked ==> b.refcnt >= 1)
      && if b.valid then b.data == view[b.Key()] else view[b.Key()] == disk[b.Key()]
  }

  /** No block is in two buffers, every buffer agrees with `view`, and a block that nobody
      references is the same on disk, so recycling its buffer loses nothing. */
  ghost predicate Coherent(s: seq<Buf>, disk: map<Id, Words>, view: map<Id, Words>, refs: map<Id, nat>, held: set<Id>) {
    && view.Keys == disk.Keys && refs.Keys == disk.Keys
    && (forall id | id in disk :: id.0 != 0)
    && (forall i: nat | i + 1 < |s| :: BufOk(s[i], disk, view, refs, held))
    && (forall i: nat, j: nat, id | CachedAt(s, i, id) && CachedAt(s, j, id) :: i == j)
    && (forall id | id in disk && !Cached(s, id) :: refs[id] == 0 && id !in held)
    && (forall id | id in disk && refs[id] == 0 :: view[id] == disk[id])
  }

  /** Coherence does not depend on the links. */
  lemma RelinkCoherent(s: seq<Buf>, s': seq<Buf>, disk: map<Id, Words>, view: map<Id, Words>, refs: map<Id, nat>,
      held: set<Id>)
    requires Coherent(s, disk, view, refs, held)
    requires |s'| == |s| && forall i | 0 <= i < |s| :: Bare(s'[i]) == Bare(s[i])
    ensures Coherent(s', disk, view, refs, held)
  {
    forall i: nat | i + 1 < |s'| ensures BufOk(s'[i], disk, view, refs, held) {
      assert Bare(s'[i]) == Bare(s[i]) && BufOk(s[i], disk, view, refs, held);
    }
    forall i: nat, id ensures CachedAt(s', i, id) <==> CachedAt(s, i, id) {
      assert i < |s| ==> Bare(s'[i]) == Bare(s[i]);
    }
    forall id | !Cached(s', id) ensures !Cached(s, id) {
      forall i: nat ensures !CachedAt(s, i, id) {
        assert !CachedAt(s', i, id);
      }
    }
  }

  ghost predicate SameElsewhere<V>(m: map<Id, V>, m': map<Id, V>, id: Id) {
    m'.Keys == m.Keys && forall x | x in m && x != id :: m'[x] == m[x]
  }

  /** Changing the one buffer that caches a block, and that block's entries, keeps coherence. */
  lemma UpdateCoherent(s: seq<Buf>, i: nat, b: Buf,
                       disk: map<Id, Words>, view: map<Id, Words>, refs: map<Id, nat>, held: set<Id>,
                       disk': map<Id, Words>, view': map<Id, Words>, refs': map<Id, nat>, held': set<Id>)
    requires Coherent(s, disk, view, refs, held) && i + 1 < |s| && s[i].dev != 0 && b.Key() == s[i].Key()
    requires var id := b.Key();
      && SameElsewhere(disk, disk', id) && SameElsewhere(view, view', id) && SameElsewhere(refs, refs', id)
      && held' - {id} == held - {id}
      && BufOk(b, disk', view', refs', held') && (b.refcnt == 0 ==> view'[id] == disk'[id])
    ensures Coherent(s[i := b], disk', view', refs', held')
  {
    var id, s' := b.Key(), s[i := b];
    assert CachedAt(s, i, id);
    forall x | x != id ensures x in held' <==> x in held {
      assert x in held' - {id} <==> x in held - {id};
    }
    forall k: nat, x ensures CachedAt(s', k, x) <==> CachedAt(s, k, x) {
    }
    forall k: nat | k + 1 < |s'| ensures BufOk(s'[k], disk', view', refs', held') {
      if k != i {
        OtherBufOk(s, i, k, disk, view, refs, held);
      }
    }
    forall x | !Cached(s', x) ensures x != id && !Cached(s, x) {
      assert !CachedAt(s', i, x);
      forall k: nat ensures !CachedAt(s, k, x) {
        assert !CachedAt(s', k, x);
      }
    }
  }

  lemma OtherBufOk(s: seq<Buf>, i: nat, k: nat, disk: map<Id, Words>, view: map<Id, Words>, refs: map<Id, nat>,
      held: set<Id>)
    requires Coherent(s, disk, view, refs, held) && i + 1 < |s| && s[i].dev != 0 && k + 1 < |s| && k != i
    ensures BufOk(s[k], disk, view, refs, held) && (s[k].dev != 0 ==> s[k].Key() != s[i].Key())
  {
    assert CachedAt(s, i, s[i].Key());
    assert s[k].dev != 0 ==> CachedAt(s, k, s[k].Key());
  }

  /** Giving an unreferenced buffer to a block that is not cached keeps coherence: the block it
      held before was clean. */
  lemma RecycleCoherent(s: seq<Buf>, i: nat, b: Buf, disk: map<Id, Words>, view: map<Id, Words>, refs: map<Id, nat>,
      held: set<Id>)
    requires Coherent(s, disk, view, refs, held) && i + 1 < |s| && s[i].refcnt == 0
    requires b.Key() in disk && !Cached(s, b.Key()) && !b.valid && b.locked && b.refcnt == 1
    ensures Coherent(s[i := b], disk, view, refs[b.Key() := 1], held + {b.Key()})
  {
    var id, s' := b.Key(), s[i := b];
    assert BufOk(s[i], disk, view, refs, held) && !CachedAt(s, i, id);
    forall k: nat, x ensures CachedAt(s', k, x) <==> if k == i then x == id else CachedAt(s, k, x) {
    }
    forall k: nat ensures !CachedAt(s, k, id) {
    }
    forall k: nat | k + 1 < |s'| ensures BufOk(s'[k], disk, view, refs[id := 1], held + {id}) {
      if k != i {
        assert BufOk(s[k], disk, view, refs, held);
        assert s[k].dev != 0 ==> CachedAt(s, k, s[k].Key());
      }
    }
    forall x | x in disk && !Cached(s', x) ensures x != id && refs[x] == 0 && x !in held {
      assert !CachedAt(s', i, x);
      if CachedAt(s, i, x) {
      } else {
        forall k: nat ensures !CachedAt(s, k, x) {
          assert !CachedAt(s', k, x);
        }
        assert !Cached(s, x);
      }
    }
  }

  lemma PermutationPush(order: seq<nat>, n: nat)
    requires Permutation(order, n)
    ensures Permutation([n] + order, n + 1)
  {
  }

  /** One block's reference count changes by n. */
  ghost predicate Bumped(refs: map<Id, nat>, refs': map<Id, nat>, id: Id, n: int) {
    id in refs && refs[id] + n >= 0 && refs' == refs[id := refs[id] + n]
  }

  lemma BumpedAt(refs: map<Id, nat>, refs': map<Id, nat>, id: Id, n: int, x: Id)
    requires Bumped(refs, refs', id, n)
    ensures x in refs <==> x in refs'
    ensures x in refs ==> refs'[x] == if x == id then refs[x] + n else refs[x]
  {
  }

  /** Buffer b is the locked, loaded buffer of block id. */
  ghost predicate Holds(s: seq<Buf>, view: map<Id, Words>, refs: map<Id, nat>, b: nat, id: Id) {
    && CachedAt(s, b, id) && s[b].locked && s[b].valid
    && id in view && s[b].data == view[id] && id in refs && s[b].refcnt == refs[id] >= 1
  }

  /** The whole invariant: the list is a permutation of all buffers, linked both ways, and the
      contents are coherent. */
  ghost predicate CacheOk(s: seq<Buf>, order: seq<nat>, disk: map<Id, Words>, view: map<Id, Words>,
      refs: map<Id, nat>, held: set<Id>) {
    && |s| >= 1 && Permutation(order, |s| - 1)
    && Ring(s, [|s| - 1] + order)
    && Coherent(s, disk, view, refs, held)
  }

  lemma Change(s: seq<Buf>, order: seq<nat>, i: nat, b: Buf,
               disk: map<Id, Words>, view: map<Id, Words>, refs: map<Id, nat>, held: set<Id>,
               disk': map<Id, Words>, view': map<Id, Words>, refs': map<Id, nat>, held': set<Id>)
    requires CacheOk(s, order, disk, view, refs, held) && i + 1 < |s| && s[i].dev != 0
    requires b.Key() == s[i].Key() && b.prev == s[i].prev && b.next == s[i].next
    requires var id := b.Key();
      && SameElsewhere(disk, disk', id) && SameElsewhere(view, view', id) && SameElsewhere(refs, refs', id)
      && held' - {id} == held - {id}
      && id in disk' && id in view' && id in refs'
      && refs'[id] == b.refcnt
      && (b.locked <==> id in held') && (b.locked ==> b.refcnt >= 1)
      && (if b.valid then b.data == view'[id] else view'[id] == disk'[id])
      && (b.refcnt == 0 ==> view'[id] == disk'[id])
    ensures CacheOk(s[i := b], order, disk', view', refs', held')
  {
    UpdateCoherent(s, i, b, disk, view, refs, held, disk', view', refs', held');
    SameRing(s, [|s| - 1] + order, i, b);
  }

  lemma Recycle(s: seq<Buf>, order: seq<nat>, i: nat, b: Buf, disk: map<Id, Words>, view: map<Id, Words>,
      refs: map<Id, nat>, held: set<Id>)
    requires CacheOk(s, order, disk, view, refs, held) && i + 1 < |s| && s[i].refcnt == 0
    requires b.Key() in disk && !Cached(s, b.Key()) && !b.valid && b.locked && b.refcnt == 1
    requires b.prev == s[i].prev && b.next == s[i].next
    ensures b.Key() in refs && refs[b.Key()] == 0
    ensures CacheOk(s[i := b], order, disk, view, refs[b.Key() := 1], held + {b.Key()})
  {
    RecycleCoherent(s, i, b, disk, view, refs, held);
    SameRing(s, [|s| - 1] + order, i, b);
  }

  lemma BufFacts(s: seq<Buf>, order: seq<nat>, i: nat, disk: map<Id, Words>, view: map<Id, Words>, refs: map<Id, nat>,
      held: set<Id>)
    requires CacheOk(s, order, disk, view, refs, held) && i + 1 < |s| && s[i].dev != 0
    ensures var b, id := s[i], s[i].Key();
      && id in disk && id in view && id in refs && refs[id] == b.refcnt
      && (b.locked <==> id in held) && (b.locked ==> b.refcnt >= 1)
      && if b.valid then b.data == view[id] else view[id] == disk[id]
  {
  }

  lemma SameRing(s: seq<Buf>, ring: seq<nat>, i: nat, b: Buf)
    requires Ring(s, ring) && i < |s| && b.prev == s[i].prev && b.next == s[i].next
    ensures Ring(s[i := b], ring)
  {
    var s' := s[i := b];
    forall k: nat | k < |ring| ensures LinkedAt(s', ring, k) {
      assert LinkedAt(s, ring, k);
    }
  }

  const ZERO_BUF := Buf(false, 0, 0, false, 0, 0, 0, [])

  /** The loop of binit. */
  method LinkAll(nbuf: nat) returns (s: seq<Buf>, ghost order: seq<nat>)
    ensures |s| == nbuf + 1 && Permutation(order, nbuf) && Ring(s, [nbuf] + order)
    ensures AllZero(s)
  {
    hide Ring, PushFront, AllZero, Permutation;
    s := seq(nbuf, _ => ZERO_BUF) + [ZERO_BUF.(prev := nbuf, next := nbuf)];
    order := [];
    AloneRing(s, nbuf);
    for b := 0 to nbuf
      invariant |s| == nbuf + 1 && Permutation(order, b) && Ring(s, [nbuf] + order) && AllZero(s)
    {
      NotYet(order, b, nbuf);
      PushFrontRing(s, [nbuf] + order, b);
      StillZero(s, PushFront(s, nbuf, b));
      s := PushFront(s, nbuf, b);
      PermutationPush(order, b);
      assert [nbuf, b] + ([nbuf] + order)[1..] == [nbuf] + ([b] + order);
      order := [b] + order;
    }
  }

  ghost predicate AllZero(s: seq<Buf>) {
    forall i | 0 <= i < |s| :: Bare(s[i]) == ZERO_BUF
  }

  lemma AloneRing(s: seq<Buf>, n: nat)
    requires s == seq(n, _ => ZERO_BUF) + [ZERO_BUF.(prev := n, next := n)]
    ensures Ring(s, [n] + []) && AllZero(s) && Permutation([], 0)
  {
    assert LinkedAt(s, [n] + [], 0);
  }

  lemma NotYet(order: seq<nat>, b: nat, n: nat)
    requires Permutation(order, b) && b < n
    ensures forall k | 0 <= k < |[n] + order| :: ([n] + order)[k] != b
  {
  }

  lemma StillZero(s: seq<Buf>, s': seq<Buf>)
    requires AllZero(s) && |s'| == |s| && forall i | 0 <= i < |s| :: Bare(s'[i]) == Bare(s[i])
    ensures AllZero(s')
  {
  }

  // How many buffers are in use.

  /** The blocks that are referenced. */
  ghost function Used(refs: map<Id, nat>): set<Id> {
    set id | id in refs && refs[id] > 0
  }

  /** The blocks in the first k buffers that are referenced. */
  ghost function InUse(s: seq<Buf>, k: nat): set<Id>
    requires k < |s|
  {
    if k == 0 then {} else InUse(s, k - 1) + if s[k - 1].refcnt > 0 then {s[k - 1].Key()} else {}
  }

  lemma {:induction false} InUseHas(s: seq<Buf>, k: nat, i: nat)
    requires i < k < |s| && s[i].refcnt > 0
    ensures s[i].Key() in InUse(s, k)
  {
    if i < k - 1 {
      InUseHas(s, k - 1, i);
    }
  }

  lemma {:induction false} InUseAt(s: seq<Buf>, k: nat, id: Id) returns (i: nat)
    requires k < |s| && id in InUse(s, k)
    ensures i < k && s[i].refcnt > 0 && s[i].Key() == id
  {
    if s[k - 1].refcnt > 0 && s[k - 1].Key() == id {
      i := k - 1;
    } else {
      i := InUseAt(s, k - 1, id);
    }
  }

  /** No block is in two buffers that are referenced. */
  ghost predicate UsedApart(s: seq<Buf>) {
    forall i: nat, j: nat | i < j && j + 1 < |s| && s[i].refcnt > 0 && s[j].refcnt > 0 :: s[i].Key() != s[j].Key()
  }

  lemma {:induction false} InUseCard(s: seq<Buf>, k: nat)
    requires UsedApart(s) && k < |s|
    ensures |InUse(s, k)| <= k && (|InUse(s, k)| == k <==> forall i: nat | i < k :: s[i].refcnt > 0)
  {
    if k > 0 {
      InUseCard(s, k - 1);
      if s[k - 1].refcnt > 0 {
        if s[k - 1].Key() in InUse(s, k - 1) {
          var i := InUseAt(s, k - 1, s[k - 1].Key());
        }
      }
    }
  }

  /** Each referenced block takes one buffer; all buffers are referenced exactly if that makes them all. */
  lemma UsedFits(s: seq<Buf>, disk: map<Id, Words>, view: map<Id, Words>, refs: map<Id, nat>, held: set<Id>)
    requires Coherent(s, disk, view, refs, held) && |s| >= 1
    ensures |Used(refs)| <= |s| - 1
    ensures |Used(refs)| == |s| - 1 <==> forall i: nat | i + 1 < |s| :: s[i].refcnt > 0
  {
    var n := |s| - 1;
    forall i: nat | i + 1 < |s| && s[i].refcnt > 0 ensures CachedAt(s, i, s[i].Key()) && s[i].Key() in Used(refs) {
      assert BufOk(s[i], disk, view, refs, held);
    }
    InUseCard(s, n);
    forall id ensures id in Used(refs) <==> id in InUse(s, n) {
      if id in Used(refs) {
        var i := UsedAt(s, disk, view, refs, held, id);
        InUseHas(s, n, i);
      } else if id in InUse(s, n) {
        var i := InUseAt(s, n, id);
      }
    }
    assert Used(refs) == InUse(s, n);
  }

  /** A referenced block is cached. */
  lemma UsedAt(s: seq<Buf>, disk: map<Id, Words>, view: map<Id, Words>, refs: map<Id, nat>, held: set<Id>, id: Id)
      returns (i: nat)
    requires Coherent(s, disk, view, refs, held) && id in Used(refs)
    ensures CachedAt(s, i, id) && s[i].refcnt == refs[id] > 0
  {
    assert Cached(s, id);
    i :| CachedAt(s, i, id);
    assert BufOk(s[i], disk, view, refs, held);
  }

  lemma UsedBumped(refs: map<Id, nat>, refs': map<Id, nat>, id: Id)
    requires Bumped(refs, refs', id, 1)
    ensures Used(refs') == Used(refs) + {id}
  {
  }

  /** bget finds a buffer exactly if the block and those in use fit the buffers. */
  lemma BreadFits(s: seq<Buf>, order: seq<nat>, disk: map<Id, Words>, view: map<Id, Words>, refs: map<Id, nat>,
      refs': map<Id, nat>, held: set<Id>, id: Id, found: bool)
    requires CacheOk(s, order, disk, view, refs', held)
    requires if found then Bumped(refs, refs', id, 1)
             else refs' == refs && !Cached(s, id) && forall i: nat | i + 1 < |s| :: s[i].refcnt > 0
    ensures found <==> |Used(refs) + {id}| <= |s| - 1
  {
    UsedFits(s, disk, view, refs', held);
    if found {
      UsedBumped(refs, refs', id);
    } else {
      assert id !in Used(refs);
    }
  }

  class Cache {
    /** NBUF; the last element of `buf` is the head of the list. */
    const nbuf: nat
    var buf: seq<Buf>
    var disk: map<Id, Words>
    /** Buffers from most to least recently used. */
    ghost var order: seq<nat>
    ghost var view: map<Id, Words>
    ghost var refs: map<Id, nat>
    ghost var held: set<Id>
    /** Every disk write so far, oldest first. */
    ghost var writes: seq<(Id, Words)>

    ghost predicate Valid()
      reads this
    {
      |buf| == nbuf + 1 && CacheOk(buf, order, disk, view, refs, held)
    }

    /** binit: every buffer zeroed and on the list. */
    constructor (nbuf: nat, image: map<Id, Words>)
      requires forall id | id in image :: id.0 != 0
      ensures Valid() && this.nbuf == nbuf && disk == image && view == image && held == {} && writes == []
      ensures refs == map id | id in image :: 0
    {
      ghost var o;
      var s;
      s, o := LinkAll(nbuf);
      this.nbuf, buf, disk := nbuf, s, image;
      order, view, refs, held, writes := o, image, map id | id in image :: 0, {}, [];
    }

    /** First loop of bget: walk the list from the most recently used end. */
    method Lookup(id: Id) returns (found: Option<nat>)
      requires Valid() && id.0 != 0
      ensures found.Some? ==> CachedAt(buf, found.value, id)
      ensures found.None? ==> !Cached(buf, id)
    {
      var head := |buf| - 1;
      ghost var ring, k := [head] + order, 1;
      hide Coherent;
      assert LinkedAt(buf, ring, 0);
      var b := buf[head].next;
      while b != head
        invariant 1 <= k <= |ring| && b == if k < |ring| then ring[k] else head
        invariant forall j | 1 <= j < k :: buf[ring[j]].Key() != id
        decreases |ring| - k
      {
        if buf[b].dev == id.0 && buf[b].blockno == id.1 {
          assert ring[0] == head && b != head;
          return Some(b);
        }
        assert LinkedAt(buf, ring, k);
        b := buf[b].next;
        k := k + 1;
      }
      assert k == |ring|;
      forall i: nat ensures !CachedAt(buf, i, id) {
        if i + 1 < |buf| {
          assert i in order;
          var j :| 0 <= j < |order| && order[j] == i;
          assert ring[j + 1] == i;
        }
      }
      found := None;
    }

    /** Second loop of bget: the least recently used buffer that nobody references. */
    method FindUnused() returns (found: Option<nat>)
      requires Valid()
      ensures found.Some? ==> found.value + 1 < |buf| && buf[found.value].refcnt == 0
      ensures found.Some? ==> LeastRecentUnused(buf, order, found.value)
      ensures found.None? ==> forall i: nat | i + 1 < |buf| :: buf[i].refcnt > 0
    {
      var head := |buf| - 1;
      ghost var ring := [head] + order;
      hide Coherent;
      assert LinkedAt(buf, ring, |ring| - 1);
      var b := buf[head].prev;
      ghost var k := |ring| - 1;
      while b != head
        invariant 0 <= k < |ring| && b == ring[k]
        invariant forall j | k < j < |ring| :: buf[ring[j]].refcnt != 0
        decreases k
      {
        if buf[b].refcnt == 0 {
          OldestUnused(buf, order, head, k);
          return Some(b);
        }
        assert LinkedAt(buf, ring, k - 1);
        b := buf[b].prev;
        k := k - 1;
      }
      NoneUnused(buf, order, head);
      found := None;
    }

    /** bget on a cached block: one more reference, and the lock. */
    method Retain(i: nat)
      requires Valid() && i + 1 < |buf| && buf[i].dev != 0 && buf[i].Key() !in held
      modifies `buf, `refs, `held
      ensures CachedAt(buf, i, old(buf)[i].Key()) && buf[i].locked
      ensures Valid() && |buf| == |old(buf)| && buf == old(buf)[i := buf[i]]
      ensures var id := old(buf)[i].Key();
        Bumped(old(refs), refs, id, 1) && held == old(held) + {id}
    {
      hide CacheOk;
      BufFacts(buf, order, i, disk, view, refs, held);
      ghost var id := buf[i].Key();
      var nb := buf[i].(refcnt := buf[i].refcnt + 1, locked := true);
      Change(buf, order, i, nb, disk, view, refs, held, disk, view, refs[id := refs[id] + 1], held + {id});
      buf := buf[i := nb];
      refs, held := refs[id := refs[id] + 1], held + {id};
    }

    /** bget on an unused buffer: it is given to another block, its contents not yet read. */
    method Reuse(i: nat, id: Id)
      requires Valid() && i + 1 < |buf| && buf[i].refcnt == 0 && id in disk && id.0 != 0 && !Cached(buf, id)
      modifies `buf, `refs, `held
      ensures Valid() && |buf| == |old(buf)| && buf == old(buf)[i := buf[i]]
      ensures Bumped(old(refs), refs, id, 1) && held == old(held) + {id}
      ensures CachedAt(buf, i, id) && buf[i].locked
    {
      hide CacheOk, Cached;
      var nb := buf[i].(dev := id.0, blockno := id.1, valid := false, refcnt := 1, locked := true);
      Recycle(buf, order, i, nb, disk, view, refs, held);
      buf := buf[i := nb];
      refs, held := refs[id := 1], held + {id};
    }

    /** bget on a block that is not cached: the least recently used buffer without references.
        None when every buffer is referenced (a panic). */
    method Allocate(id: Id) returns (b: Option<nat>)
      requires Valid() && id in disk && id in refs && id.0 != 0 && !Cached(buf, id)
      modifies `buf, `refs, `held
      ensures Valid() && |buf| == |old(buf)|
      ensures b.Some? ==> CachedAt(buf, b.value, id) && buf[b.value].locked && old(buf)[b.value].refcnt == 0
      ensures b.Some? ==> Bumped(old(refs), refs, id, 1) && held == old(held) + {id}
      ensures b.Some? ==> buf == old(buf)[b.value := buf[b.value]]
      ensures b.Some? ==> LeastRecentUnused(old(buf), order, b.value)
      ensures b.None? ==> unchanged(this) && forall i: nat | i + 1 < |buf| :: buf[i].refcnt > 0
    {
      b := FindUnused();
      hide CacheOk, Cached, LeastRecentUnused, CachedAt, Bumped;
      if b.Some? {
        Reuse(b.value, id);
      }
    }

    /** bget: a locked buffer for the block, the one that caches it or a recycled one. */
    method Bget(id: Id) returns (b: Option<nat>)
      requires Valid() && id in disk && id !in held
      modifies `buf, `refs, `held
      ensures Valid() && |buf| == |old(buf)|
      ensures b.Some? ==> CachedAt(buf, b.value, id) && buf[b.value].locked
      ensures b.Some? ==> Bumped(old(refs), refs, id, 1) && held == old(held) + {id}
      ensures b.Some? ==> old(buf)[b.value].refcnt == 0 || old(buf)[b.value].Key() == id
      ensures b.Some? ==> buf == old(buf)[b.value := buf[b.value]]
      ensures b.Some? && !Cached(old(buf), id) ==> LeastRecentUnused(old(buf), order, b.value)
      ensures b.None? ==> unchanged(this) && !Cached(buf, id) && forall i: nat | i + 1 < |buf| :: buf[i].refcnt > 0
    {
      BlockFacts(buf, order, disk, view, refs, held, id);
      b := Lookup(id);
      if b.Some? {
        assert Cached(buf, id);
        hide CacheOk, Cached, LeastRecentUnused, Bumped;
        Retain(b.value);
      } else {
        hide CacheOk, Cached, LeastRecentUnused, Bumped;
        b := Allocate(id);
      }
    }

    /** bread: a locked buffer with the block's latest contents. */
    method Bread(id: Id) returns (b: Option<nat>)
      requires Valid() && id in disk && id !in held
      modifies `buf, `refs, `held
      ensures Valid() && id in refs && id in view && |buf| == |old(buf)|
      ensures b.Some? ==> Holds(buf, view, refs, b.value, id)
      ensures b.Some? ==> forall i: nat, x | x != id && Holds(old(buf), view, old(refs), i, x) ::
        Holds(buf, view, refs, i, x)
      ensures b.Some? ==> Bumped(old(refs), refs, id, 1) && held == old(held) + {id}
      ensures b.None? ==> unchanged(this) && !Cached(buf, id) && forall i: nat | i + 1 < |buf| :: buf[i].refcnt > 0
      ensures b.Some? <==> |Used(old(refs)) + {id}| <= nbuf
    {
      hide CacheOk, Cached, LeastRecentUnused, Holds, Used;
      b := Bget(id);
      BreadFits(buf, order, disk, view, old(refs), refs, held, id, b.Some?);
      BlockFacts(buf, order, disk, view, refs, held, id);
      if b.Some? {
        ghost var before, refs0 := old(buf), old(refs);
        Load(b.value, id);
        assert refs == refs0[id := refs[id]];
        assert forall k: nat | k < |buf| && k != b.value :: buf[k] == before[k];
        forall i: nat, x | x != id && Holds(before, view, refs0, i, x) ensures Holds(buf, view, refs, i, x) {
          HoldsElsewhere(before, buf, view, refs0, refs, b.value, id, refs[id], i, x);
        }
      }
    }

    /** bread's disk read, when the buffer's contents are not valid yet. */
    method Load(i: nat, id: Id)
      requires Valid() && CachedAt(buf, i, id) && buf[i].locked
      modifies `buf
      ensures Valid() && |buf| == |old(buf)| && Holds(buf, view, refs, i, id)
      ensures forall k: nat | k < |buf| && k != i :: buf[k] == old(buf)[k]
    {
      hide CacheOk;
      BufFacts(buf, order, i, disk, view, refs, held);
      if !buf[i].valid {
        var nb := buf[i].(data := disk[id], valid := true);
        Change(buf, order, i, nb, disk, view, refs, held, disk, view, refs, held);
        buf := buf[i := nb];
      }
    }

    /** The holder of a buffer lock changes the contents. */
    method Modify(b: nat, data: Words, ghost id: Id)
      requires Valid() && Holds(buf, view, refs, b, id)
      modifies `buf, `view
      ensures Valid() && Holds(buf, view, refs, b, id) && id in old(view) && view == old(view)[id := data]
      ensures forall i: nat, x | x != id && Holds(old(buf), old(view), refs, i, x) :: Holds(buf, view, refs, i, x)
    {
      hide CacheOk;
      var nb := buf[b].(data := data);
      BufFacts(buf, order, b, disk, view, refs, held);
      Change(buf, order, b, nb, disk, view, refs, held, disk, view[id := data], refs, held);
      buf, view := buf[b := nb], view[id := data];
    }

    /** bwrite: one atomic disk write. None when the caller does not hold the buffer (a panic). */
    method Bwrite(b: nat) returns (ok: Option<()>)
      requires Valid() && b + 1 < |buf| && buf[b].dev != 0 && buf[b].valid
      modifies `disk, `writes
      ensures Valid() && ok.Some? == buf[b].locked
      ensures ok.None? ==> unchanged(this)
      ensures ok.Some? ==> var w := (buf[b].Key(), buf[b].data);
        disk == old(disk)[w.0 := w.1] && writes == old(writes) + [w]
    {
      if !buf[b].locked {
        return None;
      }
      hide CacheOk;
      var id := buf[b].Key();
      BufFacts(buf, order, b, disk, view, refs, held);
      Change(buf, order, b, buf[b], disk, view, refs, held, disk[id := buf[b].data], view, refs, held);
      assert buf[b := buf[b]] == buf;
      disk := disk[id := buf[b].data];
      writes := writes + [(id, buf[b].data)];
      ok := Some(());
    }

    method Bpin(b: nat, ghost id: Id)
      requires Valid() && Holds(buf, view, refs, b, id)
      modifies `buf, `refs, `held
      ensures Valid() && Holds(buf, view, refs, b, id) && held == old(held) && Bumped(old(refs), refs, id, 1)
      ensures forall i: nat, x | x != id && Holds(old(buf), view, old(refs), i, x) :: Holds(buf, view, refs, i, x)
    {
      hide CacheOk;
      SetRefs(b, buf[b].refcnt + 1, true, id);
    }

    /** bunpin by the holder of the buffer, who has a reference of its own. */
    method Bunpin(b: nat, ghost id: Id)
      requires Valid() && Holds(buf, view, refs, b, id) && refs[id] >= 2
      modifies `buf, `refs, `held
      ensures Valid() && Holds(buf, view, refs, b, id) && held == old(held) && Bumped(old(refs), refs, id, -1)
      ensures forall i: nat, x | x != id && Holds(old(buf), view, old(refs), i, x) :: Holds(buf, view, refs, i, x)
    {
      hide CacheOk;
      SetRefs(b, buf[b].refcnt - 1, true, id);
    }

    method SetRefs(b: nat, refcnt: nat, locked: bool, ghost id: Id)
      requires Valid() && Holds(buf, view, refs, b, id) && (locked ==> refcnt >= 1)
      requires refcnt == 0 ==> id in disk && view[id] == disk[id]
      modifies `buf, `refs, `held
      ensures Valid() && buf == old(buf)[b := old(buf)[b].(refcnt := refcnt, locked := locked)]
      ensures id in old(refs) && refs == old(refs)[id := refcnt] && held == if locked then old(held)
        else old(held) - {id}
      ensures forall i: nat, x | x != id && Holds(old(buf), view, old(refs), i, x) :: Holds(buf, view, refs, i, x)
    {
      hide CacheOk;
      BufFacts(buf, order, b, disk, view, refs, held);
      var nb := buf[b].(refcnt := refcnt, locked := locked);
      ghost var held' := if locked then held else held - {id};
      Change(buf, order, b, nb, disk, view, refs, held, disk, view, refs[id := refcnt], held');
      buf, refs, held := buf[b := nb], refs[id := refcnt], held';
    }

    /** brelse by a process that does not hold the buffer is a panic; by the holder, it drops the
        lock and one reference, and the last reference moves the buffer to the front. When the last
        reference goes the block must be clean: nothing else keeps its contents. */
    method Brelse(b: nat, ghost id: Id)
      requires Valid() && Holds(buf, view, refs, b, id) && (refs[id] == 1 ==> id in disk && view[id] == disk[id])
      modifies `buf, `refs, `held, `order
      ensures Valid() && |buf| == |old(buf)|
      ensures Bumped(old(refs), refs, id, -1) && held == old(held) - {id}
      ensures if old(refs)[id] > 1 then order == old(order) else MovedToFront(old(order), order, b)
      ensures forall i: nat, x | x != id && Holds(old(buf), view, old(refs), i, x) :: Holds(buf, view, refs, i, x)
    {
      hide CacheOk, MovedToFront, BufOk;
      assert b + 1 < |buf| && id in refs && buf[b].refcnt == refs[id] >= 1;
      hide Holds, CachedAt;
      var n := buf[b].refcnt - 1;
      SetRefs(b, n, false, id);
      if n == 0 {
        ToFront(b);
      }
    }

    /** The list surgery of brelse. */
    method ToFront(b: nat)
      requires Valid() && b + 1 < |buf|
      modifies `buf, `order
      ensures Valid() && |buf| == |old(buf)| && MovedToFront(old(order), order, b)
      ensures forall i: nat, x | Holds(old(buf), view, refs, i, x) :: Holds(buf, view, refs, i, x)
    {
      hide CacheOk, MovedToFront, PushFront, Unlink;
      ghost var o := Front(buf, order, b, disk, view, refs, held);
      var s := PushFront(Unlink(buf, b), |buf| - 1, b);
      forall i: nat, x | Holds(buf, view, refs, i, x) ensures Holds(s, view, refs, i, x) {
        assert Bare(s[i]) == Bare(buf[i]);
      }
      buf, order := s, o;
    }
  }

  lemma HoldsElsewhere(s: seq<Buf>, s': seq<Buf>, view: map<Id, Words>, refs: map<Id, nat>, refs': map<Id, nat>,
      b: nat, id: Id, r: nat, i: nat, x: Id)
    requires Holds(s, view, refs, i, x) && |s'| == |s| && (forall k: nat | k < |s| && k != b :: s'[k] == s[k])
    requires refs' == refs[id := r] && x != id && b < |s| && (s[b].refcnt == 0 || s[b].Key() == id)
    ensures Holds(s', view, refs', i, x)
  {
  }

  ghost predicate MovedToFront(order: seq<nat>, order': seq<nat>, b: nat) {
    exists k :: 0 <= k < |order| && order[k] == b && order' == [b] + (order[..k] + order[k + 1..])
  }

  /** A block without references is the same in the cache and on disk. */
  lemma BlockFacts(s: seq<Buf>, order: seq<nat>, disk: map<Id, Words>, view: map<Id, Words>, refs: map<Id, nat>,
      held: set<Id>, id: Id)
    requires CacheOk(s, order, disk, view, refs, held) && id in disk
    ensures id in view && id in refs && id.0 != 0 && (refs[id] == 0 ==> view[id] == disk[id])
  {
  }

  /** Moving b to the front keeps the list a permutation of all buffers. */
  lemma Front(s: seq<Buf>, order: seq<nat>, b: nat, disk: map<Id, Words>, view: map<Id, Words>, refs: map<Id, nat>,
      held: set<Id>)
    returns (order': seq<nat>)
    requires CacheOk(s, order, disk, view, refs, held) && b + 1 < |s|
    ensures s[b].next < |s| && s[b].prev < |s| && Unlink(s, b)[|s| - 1].next < |s|
    ensures MovedToFront(order, order', b)
    ensures CacheOk(PushFront(Unlink(s, b), |s| - 1, b), order', disk, view, refs, held)
  {
    hide Ring, Coherent, Unlink, PushFront, MovedToFront, Permutation;
    var k := PositionOf(order, |s| - 1, b);
    FrontRing(s, order, k);
    FrontPermutation(order, |s| - 1, k);
    order' := [b] + (order[..k] + order[k + 1..]);
    Moved(order, k);
    RelinkCoherent(s, PushFront(Unlink(s, b), |s| - 1, b), disk, view, refs, held);
  }

  lemma PositionOf(order: seq<nat>, n: nat, b: nat) returns (k: nat)
    requires Permutation(order, n) && b < n
    ensures k < |order| == n && order[k] == b
  {
    assert b in order;
    k :| 0 <= k < |order| && order[k] == b;
  }

  lemma Moved(order: seq<nat>, k: nat)
    requires k < |order|
    ensures MovedToFront(order, [order[k]] + (order[..k] + order[k + 1..]), order[k])
  {
  }

  lemma FrontPermutation(order: seq<nat>, n: nat, k: nat)
    requires Permutation(order, n) && k < n
    ensures Permutation([order[k]] + (order[..k] + order[k + 1..]), n)
  {
    var order' := [order[k]] + (order[..k] + order[k + 1..]);
    forall i: nat | i < n ensures i in order' {
      assert i in order;
      var j :| 0 <= j < n && order[j] == i;
      assert order'[if j < k then j + 1 else if j == k then 0 else j] == i;
    }
  }

  /** A ring goes through each of its buffers once. */
  lemma Without(s: seq<Buf>, ring: seq<nat>, k: nat)
    requires Ring(s, ring) && 1 <= k < |ring|
    ensures ring[k] < |s| && ring[k] != ring[0]
    ensures var rest := ring[..k] + ring[k + 1..]; forall i | 0 <= i < |rest| :: rest[i] != ring[k]
  {
    hide LinkedAt;
    var rest := ring[..k] + ring[k + 1..];
    assert forall i | 0 <= i < |rest| :: rest[i] == ring[if i < k then i else i + 1];
  }

  lemma FrontRing(s: seq<Buf>, order: seq<nat>, k: nat)
    requires |s| >= 1 && Ring(s, [|s| - 1] + order) && k < |order|
    ensures var b := order[k];
      && b + 1 < |s| + 1 && b != |s| - 1
      && s[b].next < |s| && s[b].prev < |s| && Unlink(s, b)[|s| - 1].next < |s|
      && Ring(PushFront(Unlink(s, b), |s| - 1, b), [|s| - 1] + ([b] + (order[..k] + order[k + 1..])))
  {
    hide Ring, Unlink, PushFront;
    var head, b := |s| - 1, order[k];
    var ring, rest := [head] + order, order[..k] + order[k + 1..];
    assert ring[k + 1] == b && ring[0] == head;
    UnlinkRing(s, ring, k + 1);
    Without(s, ring, k + 1);
    assert ring[..k + 1] + ring[k + 2..] == [head] + rest;
    assert ([head] + rest)[1..] == rest && [head, b] + rest == [head] + ([b] + rest);
    PushFrontRing(Unlink(s, b), [head] + rest, b);
  }
}
