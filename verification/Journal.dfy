/**
 The procedures of kernel/log.c over the buffer cache: log_write, write_log, write_head,
 install_trans, commit and recover_from_log. Each is tied to the list of disk writes that the
 crash theorems of module Wal are about. A panic in the cache stops the machine, so a procedure
 that does not return ok has performed a prefix of its writes.
 */
module Journal {
  import opened Common
  import opened Bio
  import opened Reservation
  import opened Wal

  class Log {
    const l: Layout
    const bc: Cache
    var lh: seq<nat>
    var outstanding: nat

    constructor (layout: Layout, cache: Cache)
      ensures l == layout && bc == cache && lh == [] && outstanding == 0
    {
      l, bc, lh, outstanding := layout, cache, [], 0;
    }

    /** Between the steps of operations: the on-disk log is empty, the in-memory header can be
        committed, and every reference is a held buffer or the pin of a logged block. */
    ghost predicate Open()
      reads this, bc
    {
      bc.Valid() && Accounted(l, lh, bc.refs, bc.held) && CanCommit(l, bc.disk, bc.view, lh)
    }

    /** log_write on a held buffer. */
    method LogWrite(b: nat, ghost id: Id) returns (ok: bool)
      requires Open() && Holds(bc.buf, bc.view, bc.refs, b, id) && id in bc.held
      requires id.0 == l.dev && id in bc.disk && !l.InLog(id)
      modifies `lh, bc`buf, bc`refs, bc`held
      ensures Open() && bc.held == old(bc.held) && Holds(bc.buf, bc.view, bc.refs, b, id)
      ensures ok <==> !LogFull(|old(lh)|, l.size) && outstanding >= 1
      ensures lh == if !ok || id.1 in old(lh) then old(lh) else old(lh) + [id.1]
      ensures ok ==> id.1 in lh
    {
      hide CacheOk, CanCommit, Accounted, Holds, Bumped, LogFull;
      ok := !LogFull(|lh|, l.size) && outstanding >= 1;
      if ok {
        HoldsKey(bc.buf, bc.view, bc.refs, b, id);
        var i := 0;
        while i < |lh| && lh[i] != bc.buf[b].blockno
          invariant 0 <= i <= |lh| && id.1 !in lh[..i]
        {
          i := i + 1;
        }
        if i == |lh| {
          ghost var r0 := bc.refs;
          AppendLoggable(l, bc.disk, bc.view, lh, id.1);
          assert lh[..i] == lh;
          lh := lh + [bc.buf[b].blockno];
          bc.Bpin(b, id);
          PinAccounted(l, old(lh), r0, bc.refs, bc.held, id);
        }
      }
    }

    /** The use that log_write is documented for: bread, modify, log_write, brelse. */
    method Update(id: Id, words: Words) returns (ok: bool)
      requires Open() && id !in bc.held && id.0 == l.dev && id in bc.disk && !l.InLog(id)
      modifies `lh, bc
      ensures bc.disk == old(bc.disk) && bc.writes == old(bc.writes)
      ensures ok ==> Open() && bc.held == old(bc.held) && bc.view == old(bc.view)[id := words]
      ensures ok ==> lh == if id.1 in old(lh) then old(lh) else old(lh) + [id.1]
      ensures ok <==> |Used(old(bc.refs)) + {id}| <= bc.nbuf && !LogFull(|old(lh)|, l.size) && outstanding >= 1
    {
      hide CacheOk, CanCommit, Accounted, Holds, Bumped, MovedToFront, LogFull, Used;
      var b := bc.Bread(id);
      ok := b.Some?;
      if ok {
        BreadAccounted(l, lh, old(bc.refs), bc.refs, old(bc.held), id);
        bc.Modify(b.value, words, id);
        ModifyKeepsCommit(l, bc.disk, old(bc.view), lh, id, words);
        ok := LogWrite(b.value, id);
        if ok {
          ghost var r1, h1 := bc.refs, bc.held;
          TwoReferences(l, lh, bc.buf, bc.view, r1, h1, b.value, id);
          bc.Brelse(b.value, id);
          BrelseAccounted(l, lh, r1, bc.refs, h1, id);
        }
      }
    }

    /** commit: its disk writes are exactly the list that CommitIsAtomic is about, or a prefix of it
        if the cache panics, and no cached block outside the log changes. */
    method Commit() returns (ok: bool, ghost k: nat)
      requires Open() && bc.held == {}
      modifies `lh, bc
      ensures Committing(l, old(bc.disk), old(bc.writes), old(bc.view), old(lh), k, bc.disk, bc.writes)
      ensures ok ==> k == CommitLength(|old(lh)|) && Open() && bc.held == {} && lh == []
      ensures ok ==> SameOutside(l, old(bc.view), bc.view)
      ensures ok <==> old(lh) == [] || |old(lh)| < bc.nbuf
    {
      hide Used, CacheOk, CanCommit, LogOk, Loggable, Accounted, Pinned, RefsFrom, Logging, Committing, SameOutside,
          Dropped;
      ghost var d0, w0, v0, l0, r0 := bc.disk, bc.writes, bc.view, lh, bc.refs;
      k, ok := 0, true;
      if |lh| > 0 {
        OpenIdle();
        KeysAgree(bc.buf, bc.order, bc.disk, bc.view, bc.refs, bc.held);
        OpenUsed(l, bc.disk, bc.view, lh, bc.refs);
        ok, k := WriteLog();
        StageLog(l, d0, w0, v0, l0, k, bc.disk, bc.writes);
        if ok {
          ok, k := Publish(d0, w0, v0);
          if ok {
            Finished(l, d0, w0, v0, l0, r0, bc.buf, bc.order, bc.disk, bc.writes, bc.view, bc.refs);
          }
        }
      } else {
        CommitNothing(l, d0, w0, v0);
        Unchanged(l, v0);
      }
    }

    /** The part of commit after write_log. */
    method Publish(ghost d0: Disk, ghost w0: seq<Write>, ghost v0: Disk) returns (ok: bool, ghost k: nat)
      requires Idle() && CanCommit(l, d0, v0, lh) && lh != [] && RefsFrom(l, bc.refs, lh, 0, 1)
      requires SameOutside(l, v0, bc.view)
      requires Logging(l, d0, w0, v0, lh, |lh|, bc.disk, bc.writes)
      modifies `lh, bc
      ensures Committing(l, d0, w0, v0, old(lh), k, bc.disk, bc.writes)
      ensures ok ==> k == CommitLength(|old(lh)|) && Idle() && lh == [] && SameOutside(l, v0, bc.view)
      ensures ok ==> bc.refs == Dropped(l, old(bc.refs), old(lh), |old(lh)|)
      ensures ok <==> |Used(old(bc.refs))| < bc.nbuf
    {
      hide Used, CacheOk, CanCommit, Idle, RefsFrom, Committing, Logging, Heading, AtCommitPoint, Dropped, LogOk,
          Targets,
          SameOutside, HeaderOnly;
      ghost var dA, wA, vA, n := bc.disk, bc.writes, bc.view, |lh|;
      AfterLog(l, d0, w0, v0, lh, dA, wA);
      ok, k := WriteHead();
      StageHead(l, d0, w0, v0, lh, dA, wA, k, bc.disk, bc.writes);
      k := n + k;
      if ok {
        HeaderInside(l, v0, vA, bc.view);
        ok, k := InstallCommitted(d0, w0, v0);
      }
    }

    /** The part of commit after the commit point. */
    method InstallCommitted(ghost d0: Disk, ghost w0: seq<Write>, ghost v0: Disk) returns (ok: bool, ghost k: nat)
      requires Idle() && CanCommit(l, d0, v0, lh) && lh != [] && RefsFrom(l, bc.refs, lh, 0, 1)
      requires SameOutside(l, v0, bc.view)
      requires bc.disk == AtCommitPoint(l, d0, v0, lh) && Committing(l, d0, w0, v0, lh, |lh| + 1, bc.disk, bc.writes)
      modifies `lh, bc
      ensures Committing(l, d0, w0, v0, old(lh), k, bc.disk, bc.writes)
      ensures ok ==> k == CommitLength(|old(lh)|) && Idle() && lh == [] && SameOutside(l, v0, bc.view)
      ensures ok ==> bc.refs == Dropped(l, old(bc.refs), old(lh), |old(lh)|)
      ensures ok <==> |Used(old(bc.refs))| < bc.nbuf
    {
      hide Used, CacheOk, CanCommit, Idle, RefsFrom, LogOk, Committing, Recovering, AtCommitPoint, SameOutside, Erased,
          Dropped, Targets, SameHome;
      CommitPoint(l, d0, v0, lh);
      ghost var vB, d1, w1, l0 := bc.view, bc.disk, bc.writes, lh;
      ghost var j;
      ok, j := InstallAndClear(false);
      StageInstall(l, d0, w0, v0, l0, d1, w1, j, bc.disk, bc.writes);
      k := |l0| + 1 + j;
      if ok {
        InstallKeepsView(l, d0, v0, l0, vB, bc.view);
      }
    }

    /** install_trans, then an empty header: the tail of commit, and of recover_from_log. */
    method InstallAndClear(recovering: bool) returns (ok: bool, ghost k: nat)
      requires Idle() && LogOk(l, bc.disk) && lh == Targets(bc.disk[l.Header()])
      requires RefsFrom(l, bc.refs, lh, 0, if recovering then 0 else 1)
      modifies `lh, bc
      ensures Recovering(l, old(bc.disk), old(bc.writes), k, bc.disk, bc.writes)
      ensures ok ==> k == |old(lh)| + 1 && Idle() && lh == []
      ensures ok ==>
        bc.refs == Dropped(l, old(bc.refs), old(lh), |old(lh)|) &&
        Erased(l, old(bc.disk), old(bc.view), old(lh), bc.view)
      ensures ok <==> |Used(old(bc.refs))| + (if old(lh) == [] then 1 else InstallNeeds(recovering)) <= bc.nbuf
    {
      hide Used, CacheOk, RefsFrom, Dropped, Installing, Installed, Recovering, Heading, HeaderOnly, LogOk, Targets,
          Loggable;
      ghost var d0, w0, l0 := bc.disk, bc.writes, lh;
      TargetsLoggable(l, d0);
      ok, k := InstallTrans(recovering);
      StageInstalled(l, d0, w0, l0, k, bc.disk, bc.writes);
      if ok {
        ghost var d1, w1 := bc.disk, bc.writes;
        lh := [];
        ghost var j;
        ok, j := WriteHead();
        StageErased(l, d0, w0, l0, d1, w1, j, bc.disk, bc.writes);
        k := k + j;
      }
    }

    /** read_head: the list on disk replaces the one in memory. */
    method ReadHead() returns (ok: bool)
      requires Idle() && LogOk(l, bc.disk)
      modifies `lh, bc
      ensures bc.disk == old(bc.disk) && bc.writes == old(bc.writes) && bc.view == old(bc.view)
      ensures ok ==> Idle() && bc.refs == old(bc.refs) && lh == Targets(bc.disk[l.Header()])
      ensures ok <==> |Used(old(bc.refs))| < bc.nbuf
    {
      hide CacheOk, Bumped, Cached, LogOk, HeaderOk, Targets, Loggable, Holds;
      ghost var id, r0 := l.Header(), bc.refs;
      TargetsLoggable(l, bc.disk);
      BlockFacts(bc.buf, bc.order, bc.disk, bc.view, bc.refs, bc.held, id);
      var b := bc.Bread(l.Header());
      ok := b.Some?;
      if ok {
        HoldsKey(bc.buf, bc.view, bc.refs, b.value, id);
        lh := CopyTargets(bc.buf[b.value].data);
        ReleaseClean(b.value, id, r0);
      }
    }

    /** brelse of a buffer that nobody else references. */
    method ReleaseClean(b: nat, ghost id: Id, ghost r0: map<Id, nat>)
      requires bc.Valid() && Holds(bc.buf, bc.view, bc.refs, b, id) && bc.held == {id}
      requires Bumped(r0, bc.refs, id, 1) && id in bc.disk && bc.view[id] == bc.disk[id]
      modifies bc`buf, bc`refs, bc`held, bc`order
      ensures bc.Valid() && bc.held == {} && bc.refs == r0
    {
      hide CacheOk, MovedToFront;
      ghost var r1 := bc.refs;
      bc.Brelse(b, id);
      Undone(r0, r1, bc.refs, id);
    }

    /** recover_from_log at boot, on a cache nobody uses yet. */
    method Recover() returns (ok: bool, ghost k: nat)
      requires bc.Valid() && bc.held == {} && (forall id | id in bc.refs :: bc.refs[id] == 0) && LogOk(l, bc.disk)
      modifies `lh, bc
      ensures Recovering(l, old(bc.disk), old(bc.writes), k, bc.disk, bc.writes)
      ensures ok ==> Open() && bc.held == {} && lh == [] && bc.disk == Recovered(l, old(bc.disk))
      ensures ok <==> (if Targets(old(bc.disk)[l.Header()]) == [] then 1 else 2) <= bc.nbuf
    {
      hide CacheOk, Apply, Recovering, RecoverWrites, LogOk, HeaderOk, Loggable, Targets, CanCommit, Erased;
      ghost var d0, w0, r0 := bc.disk, bc.writes, bc.refs;
      KeysAgree(bc.buf, bc.order, bc.disk, bc.view, bc.refs, bc.held);
      TargetsLoggable(l, d0);
      RecoverNothing(l, d0, w0);
      ok := ReadHead();
      k := 0;
      if ok {
        ghost var l0 := lh;
        assert RefsFrom(l, bc.refs, lh, 0, 0) by {
          TargetsReferenced(l, d0, bc.refs, lh);
        }
        ok, k := InstallAndClear(true);
        if ok {
          KeysAgree(bc.buf, bc.order, bc.disk, bc.view, bc.refs, bc.held);
          RecoveredOpen(l, d0, w0, k, bc.disk, bc.writes, bc.view);
          DroppedZero(l, r0, l0, |l0|);
        }
      }
    }

    /** begin_op when no commit is running: the operation starts, or has to wait. */
    method BeginOp() returns (ok: bool)
      modifies `outstanding
      ensures ok <==> CanBegin(|lh|, old(outstanding), false)
      ensures outstanding == if ok then old(outstanding) + 1 else old(outstanding)
    {
      ok := CanBegin(|lh|, outstanding, false);
      if ok {
        outstanding := outstanding + 1;
      }
    }

    /** end_op by the last outstanding operation commits. */
    method EndOp() returns (ok: bool, ghost k: nat)
      requires Open() && bc.held == {} && outstanding >= 1
      modifies `lh, `outstanding, bc
      ensures outstanding == old(outstanding) - 1
      ensures outstanding > 0 ==> ok && unchanged(bc) && lh == old(lh)
      ensures outstanding == 0 ==>
        Committing(l, old(bc.disk), old(bc.writes), old(bc.view), old(lh), k, bc.disk, bc.writes)
      ensures ok ==> Open() && bc.held == {} && SameOutside(l, old(bc.view), bc.view)
      ensures ok && outstanding == 0 ==> k == CommitLength(|old(lh)|) && lh == []
      ensures ok <==> outstanding > 0 || old(lh) == [] || |old(lh)| < bc.nbuf
    {
      hide CacheOk, CanCommit, CommitWrites, Committing, Accounted;
      outstanding := outstanding - 1;
      ok, k := true, 0;
      if outstanding == 0 {
        ok, k := Commit();
      }
    }

    lemma OpenIdle()
      requires Open() && bc.held == {}
      ensures Idle() && Pinned() && RefsFrom(l, bc.refs, lh, 0, 1) && LogOk(l, bc.disk) && Loggable(l, bc.disk, lh)
    {
      KeysAgree(bc.buf, bc.order, bc.disk, bc.view, bc.refs, bc.held);
      hide CacheOk;
      forall i | 0 <= i < |lh|
        ensures l.Home(lh[i]) in bc.view && l.Home(lh[i]) in bc.refs && bc.refs[l.Home(lh[i])] == 1
      {
        assert Logged(l, lh, l.Home(lh[i]));
      }
      forall id | id in bc.refs && l.InLog(id) ensures bc.refs[id] == 0 {
        assert !Logged(l, lh, id);
      }
    }

    /** The cache is idle: no buffer is held and nobody references the log area. */
    ghost predicate Idle()
      reads this, bc
    {
      bc.Valid() && bc.held == {} && forall id | id in bc.refs && l.InLog(id) :: bc.refs[id] == 0
    }

    /** Every block in the in-memory header is pinned, once. */
    ghost predicate Pinned()
      reads this, bc
    {
      forall i | 0 <= i < |lh| :: l.Home(lh[i]) in bc.view && l.Home(lh[i]) in bc.refs && bc.refs[l.Home(lh[i])] == 1
    }

    /** write_log: copy the modified blocks from the cache to the log. */
    method WriteLog() returns (ok: bool, ghost k: nat)
      requires Idle() && Pinned() && LogOk(l, bc.disk) && Loggable(l, bc.disk, lh)
      modifies bc
      ensures Logging(l, old(bc.disk), old(bc.writes), old(bc.view), lh, k, bc.disk, bc.writes)
      ensures ok ==> k == |lh| && Idle() && bc.refs == old(bc.refs) && SameOutside(l, old(bc.view), bc.view)
      ensures ok <==> lh == [] || |Used(old(bc.refs))| < bc.nbuf
    {
      hide LogOk, Loggable, CacheOk, Apply, Logging, Idle, Pinned, SameOutside, Used;
      ghost var d0, w0, v0 := bc.disk, bc.writes, bc.view;
      k, ok := 0, true;
      LoggingStarts();
      var tail := 0;
      while tail < |lh|
        invariant k == tail <= |lh| && ok
        invariant Idle() && bc.refs == old(bc.refs) && SameOutside(l, v0, bc.view)
        invariant Logging(l, d0, w0, v0, lh, k, bc.disk, bc.writes) && Pinned()
        invariant tail > 0 ==> |Used(old(bc.refs))| < bc.nbuf
      {
        ok := LogOne(tail, d0, w0, v0);
        if !ok {
          return;
        }
        k, tail := k + 1, tail + 1;
      }
    }

    lemma LoggingStarts()
      requires Pinned()
      ensures Logging(l, bc.disk, bc.writes, bc.view, lh, 0, bc.disk, bc.writes) && SameOutside(l, bc.view, bc.view)
    {
    }

    /** The body of write_log's loop. */
    method LogOne(tail: nat, ghost d0: Disk, ghost w0: seq<Write>, ghost v0: Disk) returns (ok: bool)
      requires Idle() && Pinned() && tail < |lh| && LogOk(l, d0) && Loggable(l, d0, lh)
      requires SameOutside(l, v0, bc.view) && Logging(l, d0, w0, v0, lh, tail, bc.disk, bc.writes)
      modifies bc
      ensures !ok ==> bc.disk == old(bc.disk) && bc.writes == old(bc.writes)
      ensures ok ==> Idle() && Pinned() && bc.refs == old(bc.refs) && SameOutside(l, v0, bc.view)
      ensures ok ==> Logging(l, d0, w0, v0, lh, tail + 1, bc.disk, bc.writes)
      ensures ok <==> |Used(old(bc.refs))| < bc.nbuf
    {
      hide LogOk, Loggable, CacheOk, Logging, SameOutside;
      var from, to := l.Home(lh[tail]), l.Log(tail);
      LogKeeps(l, d0, w0, v0, lh, tail, bc.disk, bc.writes);
      BlockFacts(bc.buf, bc.order, bc.disk, bc.view, bc.refs, bc.held, to);
      NeedOne(bc.refs, from, to);
      ghost var r0, d, w, view := bc.refs, bc.disk, bc.writes, bc.view;
      ok := CopyBlock(from, to, true, false);
      if ok {
        Same(r0, to);
        LoggingStep(l, d0, w0, v0, lh, tail, d, w, view, bc.disk, bc.writes, bc.view);
      }
    }

    /** install_trans: copy the log blocks to their home locations, dropping the pins after a commit. */
    method InstallTrans(recovering: bool) returns (ok: bool, ghost k: nat)
      requires Idle() && LogOk(l, bc.disk) && Loggable(l, bc.disk, lh)
      requires RefsFrom(l, bc.refs, lh, 0, if recovering then 0 else 1)
      modifies bc
      ensures Installing(l, old(bc.disk), old(bc.writes), lh, k, bc.disk, bc.writes)
      ensures ok ==> k == |lh| && Idle() && bc.refs == Dropped(l, old(bc.refs), lh, |lh|)
      ensures ok ==> Installed(l, old(bc.disk), old(bc.view), lh, |lh|, bc.view)
      ensures ok <==> lh == [] || |Used(old(bc.refs))| + InstallNeeds(recovering) <= bc.nbuf
      ensures ok ==> |Used(bc.refs)| <= |Used(old(bc.refs))| && (lh == [] ==> bc.refs == old(bc.refs))
    {
      hide LogOk, Loggable, CacheOk, Installing, Installed, Idle, RefsFrom, Dropped, Used;
      ghost var d0, w0, v0, r0 := bc.disk, bc.writes, bc.view, bc.refs;
      InstallingStarts(l, d0, w0, v0, r0, lh);
      k, ok := 0, true;
      var tail := 0;
      while tail < |lh| && ok
        invariant k <= tail <= |lh|
        invariant ok ==> k == tail && Idle() && RefsFrom(l, bc.refs, lh, tail, if recovering then 0 else 1)
        invariant Installing(l, d0, w0, lh, k, bc.disk, bc.writes)
        invariant ok ==> Installed(l, d0, v0, lh, tail, bc.view) && bc.refs == Dropped(l, r0, lh, tail)
        invariant ok ==> |Used(bc.refs)| <= |Used(r0)| && (lh == [] ==> bc.refs == r0)
        invariant if tail == 0 then ok else ok <==> |Used(r0)| + InstallNeeds(recovering) <= bc.nbuf
      {
        ok := InstallOne(tail, recovering, d0, w0, v0, r0);
        if ok {
          k := k + 1;
        }
        tail := tail + 1;
      }
    }

    /** The body of install_trans's loop. */
    method InstallOne(tail: nat, recovering: bool, ghost d0: Disk, ghost w0: seq<Write>, ghost v0: Disk,
        ghost r0: map<Id, nat>) returns (ok: bool)
      requires Idle() && tail < |lh| && LogOk(l, d0) && Loggable(l, d0, lh)
      requires RefsFrom(l, bc.refs, lh, tail, if recovering then 0 else 1)
      requires Installing(l, d0, w0, lh, tail, bc.disk, bc.writes)
      requires Installed(l, d0, v0, lh, tail, bc.view) && bc.refs == Dropped(l, r0, lh, tail)
      modifies bc
      ensures !ok ==> bc.disk == old(bc.disk) && bc.writes == old(bc.writes)
      ensures ok ==> Idle() && RefsFrom(l, bc.refs, lh, tail + 1, if recovering then 0 else 1)
      ensures ok ==> Installing(l, d0, w0, lh, tail + 1, bc.disk, bc.writes)
      ensures ok ==> Installed(l, d0, v0, lh, tail + 1, bc.view) && bc.refs == Dropped(l, r0, lh, tail + 1)
      ensures ok <==> |Used(old(bc.refs))| + InstallNeeds(recovering) <= bc.nbuf
      ensures ok ==> |Used(bc.refs)| <= |Used(old(bc.refs))|
    {
      hide LogOk, Loggable, CacheOk, Installing, Installed, RefsFrom, Dropped, Used;
      var from, to := l.Log(tail), l.Home(lh[tail]);
      InstallKeeps(l, d0, w0, lh, tail, bc.disk, bc.writes);
      BlockFacts(bc.buf, bc.order, bc.disk, bc.view, bc.refs, bc.held, from);
      NextRefs(l, d0, bc.refs, lh, tail, if recovering then 0 else 1);
      ghost var refs, d, w, view := bc.refs, bc.disk, bc.writes, bc.view;
      NeedToInstall(bc.refs, from, to, recovering);
      ok := CopyBlock(from, to, false, !recovering);
      if ok {
        UsedLess(refs, to);
        InstallingStep(l, d0, w0, v0, r0, lh, tail, d, w, view, refs);
      }
    }

    /** write_head: the commit point when the list is not empty, the erasure when it is. */
    method WriteHead() returns (ok: bool, ghost k: nat)
      requires Idle() && l.size >= 1 && l.Header() in bc.disk && |lh| < |bc.disk[l.Header()]|
      modifies bc
      ensures Heading(l, old(bc.disk), old(bc.writes), lh, k, bc.disk, bc.writes)
      ensures ok ==> k == 1 && Idle() && bc.refs == old(bc.refs) && HeaderOnly(l, old(bc.view), bc.view)
      ensures ok <==> |Used(old(bc.refs))| < bc.nbuf
    {
      hide CacheOk, Heading, HeaderOnly, Cached, Bumped, HeaderWords;
      BlockFacts(bc.buf, bc.order, bc.disk, bc.view, bc.refs, bc.held, l.Header());
      HeadingOne(l, bc.disk, bc.writes, bc.view, lh);
      var b := bc.Bread(l.Header());
      ok := b.Some?;
      k := if ok then 1 else 0;
      if ok {
        FinishHead(b.value, old(bc.refs));
      }
    }

    /** The rest of write_head, with the header block in a held buffer. */
    method FinishHead(b: nat, ghost r0: map<Id, nat>)
      requires bc.Valid() && Holds(bc.buf, bc.view, bc.refs, b, l.Header()) && bc.held == {l.Header()}
      requires l.Header() in bc.disk && |lh| < |bc.view[l.Header()]| && Bumped(r0, bc.refs, l.Header(), 1)
      modifies bc
      ensures bc.Valid() && bc.held == {} && bc.refs == r0
      ensures var words := HeaderWords(old(bc.view)[l.Header()], lh);
        && bc.view == old(bc.view)[l.Header() := words] && bc.disk == old(bc.disk)[l.Header() := words]
        && bc.writes == old(bc.writes) + [(l.Header(), words)]
    {
      hide CacheOk, Bumped;
      Store(b, HeaderWords(bc.buf[b].data, lh), l.Header());
      ReleaseClean(b, l.Header(), r0);
    }

    /** Copy one block into another through the cache and write it out: the loop body of write_log
        (to log block i, read first) and of install_trans (to a home block, read last, whose pin a
        commit drops). */
    method CopyBlock(from: Id, to: Id, toFirst: bool, unpin: bool) returns (ok: bool)
      requires bc.Valid() && bc.held == {} && from != to && from in bc.disk && to in bc.disk
      requires from in bc.view && to in bc.refs && bc.refs[to] == if unpin then 1 else 0
      modifies bc
      ensures !ok ==> bc.disk == old(bc.disk) && bc.writes == old(bc.writes)
      ensures ok ==> bc.Valid() && bc.held == {}
      ensures ok ==> bc.view == old(bc.view)[to := old(bc.view)[from]] && bc.refs == old(bc.refs)[to := 0]
      ensures ok ==> bc.disk == old(bc.disk)[to := old(bc.view)[from]]
      ensures ok ==> bc.writes == old(bc.writes) + [(to, old(bc.view)[from])]
      ensures ok <==> |Used(old(bc.refs)) + {from, to}| <= bc.nbuf
    {
      hide CacheOk, Both, Ready, Twice, Used;
      ghost var r0 := bc.refs;
      BlockFacts(bc.buf, bc.order, bc.disk, bc.view, bc.refs, bc.held, from);
      var pair := Acquire(from, to, toFirst);
      ok := pair.Some?;
      if ok {
        Finish(pair.value, unpin, from, to, r0);
      }
    }

    /** CopyBlock after the two breads. */
    method Finish(ft: (nat, nat), unpin: bool, ghost from: Id, ghost to: Id, ghost r0: map<Id, nat>)
      requires Both(ft, from, to) && Twice(r0, bc.refs, from, to)
      requires r0[to] == (if unpin then 1 else 0) && (r0[from] == 0 ==> bc.view[from] == bc.disk[from])
      modifies bc
      ensures bc.Valid() && bc.held == {} && bc.refs == r0[to := 0]
      ensures from in old(bc.view) && bc.view == old(bc.view)[to := old(bc.view)[from]]
      ensures bc.disk == old(bc.disk)[to := old(bc.view)[from]]
      ensures bc.writes == old(bc.writes) + [(to, old(bc.view)[from])]
    {
      hide CacheOk, Ready, Twice;
      Fill(ft, unpin, from, to, r0);
      Release(ft, from, to, r0);
    }

    /** Both buffers are held and loaded. */
    ghost predicate Both(ft: (nat, nat), from: Id, to: Id)
      reads this, bc
    {
      && bc.Valid() && from != to && bc.held == {from, to} && from in bc.disk && to in bc.disk
      && Holds(bc.buf, bc.view, bc.refs, ft.0, from) && Holds(bc.buf, bc.view, bc.refs, ft.1, to)
    }

    /** The copy is written, and releasing both buffers leaves the references r0 without a pin on `to`. */
    ghost predicate Ready(ft: (nat, nat), from: Id, to: Id, r0: map<Id, nat>)
      reads this, bc
    {
      && Both(ft, from, to)
      && bc.refs[to] == 1 && bc.view[to] == bc.disk[to] && (bc.refs[from] == 1 ==> bc.view[from] == bc.disk[from])
      && from in r0 && bc.refs == r0[from := r0[from] + 1][to := 1]
    }

    /** The two bread calls, in either order. */
    method Acquire(from: Id, to: Id, toFirst: bool) returns (pair: Option<(nat, nat)>)
      requires bc.Valid() && bc.held == {} && from != to && from in bc.disk && to in bc.disk
      modifies bc`buf, bc`refs, bc`held
      ensures pair.Some? ==> Both(pair.value, from, to) && Twice(old(bc.refs), bc.refs, from, to)
      ensures pair.Some? <==> |Used(old(bc.refs)) + {from, to}| <= bc.nbuf
    {
      hide CacheOk, Twice, Used;
      assert {to, from} == {from, to};
      if toFirst {
        var back := BreadTwo(to, from);
        pair := if back.Some? then Some((back.value.1, back.value.0)) else None;
      } else {
        pair := BreadTwo(from, to);
      }
      if pair.Some? {
        TwiceCommutes(old(bc.refs), bc.refs, from, to);
      }
    }

    method BreadTwo(x: Id, y: Id) returns (pair: Option<(nat, nat)>)
      requires bc.Valid() && bc.held == {} && x != y && x in bc.disk && y in bc.disk
      modifies bc`buf, bc`refs, bc`held
      ensures pair.Some? ==> Both(pair.value, x, y) && Twice(old(bc.refs), bc.refs, x, y)
      ensures pair.Some? <==> |Used(old(bc.refs)) + {x, y}| <= bc.nbuf
    {
      hide CacheOk, Holds, Cached, Bumped, Twice, Used;
      ghost var used := Used(bc.refs);
      assert used + {x, y} == used + {x} + {y};
      CardSubset(used + {x}, used + {x, y});
      pair := None;
      ghost var r0 := bc.refs;
      var f := bc.Bread(x);
      if f.Some? {
        ghost var r1 := bc.refs;
        UsedBumped(r0, r1, x);
        var t := bc.Bread(y);
        if t.Some? {
          pair := Some((f.value, t.value));
          BumpedTwice(r0, r1, bc.refs, x, y);
        }
      }
    }

    /** memmove between two held buffers, then bwrite, and bunpin after a commit. */
    method Fill(ft: (nat, nat), unpin: bool, ghost from: Id, ghost to: Id, ghost r0: map<Id, nat>)
      requires Both(ft, from, to) && Twice(r0, bc.refs, from, to)
      requires r0[to] == (if unpin then 1 else 0) && (r0[from] == 0 ==> bc.view[from] == bc.disk[from])
      modifies bc`buf, bc`view, bc`disk, bc`writes, bc`refs, bc`held
      ensures Ready(ft, from, to, r0)
      ensures from in old(bc.view) && bc.view == old(bc.view)[to := old(bc.view)[from]]
      ensures bc.disk == old(bc.disk)[to := old(bc.view)[from]]
      ensures bc.writes == old(bc.writes) + [(to, old(bc.view)[from])]
    {
      hide CacheOk, Bumped;
      ghost var r2 := bc.refs;
      Store(ft.1, bc.buf[ft.0].data, to);
      if unpin {
        bc.Bunpin(ft.1, to);
        Unpinned(r0, r2, bc.refs, from, to);
      }
    }

    /** The two brelse calls. */
    method Release(ft: (nat, nat), ghost from: Id, ghost to: Id, ghost r0: map<Id, nat>)
      requires Ready(ft, from, to, r0)
      modifies bc`buf, bc`refs, bc`held, bc`order
      ensures bc.Valid() && bc.held == {} && bc.refs == r0[to := 0]
    {
      hide CacheOk, MovedToFront, Bumped;
      ghost var r3 := bc.refs;
      bc.Brelse(ft.0, from);
      ghost var r4 := bc.refs;
      BumpedAt(r3, r4, from, -1, to);
      bc.Brelse(ft.1, to);
      Balanced(r0, r3, r4, bc.refs, from, to);
    }

    /** Change a held buffer and bwrite it. */
    method Store(b: nat, words: Words, ghost id: Id)
      requires bc.Valid() && Holds(bc.buf, bc.view, bc.refs, b, id)
      modifies bc`buf, bc`view, bc`disk, bc`writes
      ensures bc.Valid() && Holds(bc.buf, bc.view, bc.refs, b, id)
      ensures bc.view == old(bc.view)[id := words] && bc.disk == old(bc.disk)[id := words]
      ensures bc.writes == old(bc.writes) + [(id, words)]
      ensures forall i: nat, x | x != id && Holds(old(bc.buf), old(bc.view), bc.refs, i, x) ::
        Holds(bc.buf, bc.view, bc.refs, i, x)
    {
      hide CacheOk;
      bc.Modify(b, words, id);
      var w := bc.Bwrite(b);
    }
  }

  /** Copying a referenced block to one that is not takes one buffer more. */
  lemma NeedOne(refs: map<Id, nat>, x: Id, y: Id)
    requires x in refs && refs[x] > 0 && y in refs && refs[y] == 0
    ensures |Used(refs) + {x, y}| == |Used(refs)| + 1 && |Used(refs) + {y, x}| == |Used(refs)| + 1
  {
    assert Used(refs) + {x, y} == Used(refs) + {y} == Used(refs) + {y, x};
  }

  /** The buffers that install_trans takes beside those in use: after a commit the home block is pinned. */
  function InstallNeeds(recovering: bool): nat {
    if recovering then 2 else 1
  }

  lemma NeedToInstall(refs: map<Id, nat>, from: Id, to: Id, recovering: bool)
    requires from != to && from in refs && refs[from] == 0 && to in refs && refs[to] == if recovering then 0 else 1
    ensures |Used(refs) + {from, to}| == |Used(refs)| + InstallNeeds(recovering)
  {
    if recovering {
      assert Used(refs) + {from, to} == Used(refs) + {from} + {to};
    } else {
      NeedOne(refs, to, from);
    }
  }

  lemma UsedLess(refs: map<Id, nat>, id: Id)
    ensures |Used(refs[id := 0])| <= |Used(refs)|
  {
    CardSubset(Used(refs[id := 0]), Used(refs));
  }

  /** While no buffer is held, the blocks in use are the logged ones. */
  lemma OpenUsed(l: Layout, d: Disk, view: Disk, lh: seq<nat>, refs: map<Id, nat>)
    requires Accounted(l, lh, refs, {}) && CanCommit(l, d, view, lh) && refs.Keys == d.Keys
    ensures Used(refs) == Homes(l, lh) && |Used(refs)| == |lh|
  {
    hide LogOk;
    forall id ensures id in Used(refs) <==> id in Homes(l, lh) {
      HomesAre(l, lh, id);
      if id in Homes(l, lh) {
        var i :| 0 <= i < |lh| && lh[i] == id.1;
        assert l.Home(lh[i]) == id;
      }
    }
    assert Used(refs) == Homes(l, lh);
    HomesCard(l, lh);
  }

  /** So one more takes one more buffer, unless it is logged already. */
  lemma OpenUsedWith(l: Layout, d: Disk, view: Disk, lh: seq<nat>, refs: map<Id, nat>, b: nat)
    requires Accounted(l, lh, refs, {}) && CanCommit(l, d, view, lh) && refs.Keys == d.Keys
    ensures |Used(refs) + {l.Home(b)}| == |lh| + if b in lh then 0 else 1
  {
    hide CanCommit, Accounted, Homes;
    OpenUsed(l, d, view, lh, refs);
    HomesAre(l, lh, l.Home(b));
    if b in lh {
      assert Used(refs) + {l.Home(b)} == Used(refs);
    }
  }

  ghost function Homes(l: Layout, lh: seq<nat>): set<Id> {
    set i | 0 <= i < |lh| :: l.Home(lh[i])
  }

  lemma HomesAre(l: Layout, lh: seq<nat>, id: Id)
    ensures id in Homes(l, lh) <==> Logged(l, lh, id)
  {
    if Logged(l, lh, id) {
      var i :| 0 <= i < |lh| && lh[i] == id.1;
      assert l.Home(lh[i]) == id;
    }
  }

  lemma {:induction false} HomesCard(l: Layout, lh: seq<nat>)
    requires forall i, j | 0 <= i < j < |lh| :: lh[i] != lh[j]
    ensures |Homes(l, lh)| == |lh|
  {
    if lh != [] {
      var n := |lh| - 1;
      HomesCard(l, lh[..n]);
      assert Homes(l, lh) == Homes(l, lh[..n]) + {l.Home(lh[n])};
    }
  }

  /** Every reference is a held buffer or the pin of a logged block. */
  ghost predicate Accounted(l: Layout, lh: seq<nat>, refs: map<Id, nat>, held: set<Id>) {
    forall id | id in refs :: refs[id] == (if id in held then 1 else 0) + (if Logged(l, lh, id) then 1 else 0)
  }

  lemma PinAccounted(l: Layout, lh: seq<nat>, r0: map<Id, nat>, r: map<Id, nat>, held: set<Id>, id: Id)
    requires Accounted(l, lh, r0, held) && Bumped(r0, r, id, 1) && id.0 == l.dev && id.1 !in lh
    ensures Accounted(l, lh + [id.1], r, held)
  {
    forall x | x in r ensures Logged(l, lh + [id.1], x) <==> Logged(l, lh, x) || x == id {
    }
  }

  lemma BreadAccounted(l: Layout, lh: seq<nat>, r0: map<Id, nat>, r: map<Id, nat>, held: set<Id>, id: Id)
    requires Accounted(l, lh, r0, held) && Bumped(r0, r, id, 1) && id !in held
    ensures Accounted(l, lh, r, held + {id})
  {
  }

  lemma BrelseAccounted(l: Layout, lh: seq<nat>, r0: map<Id, nat>, r: map<Id, nat>, held: set<Id>, id: Id)
    requires Accounted(l, lh, r0, held) && Bumped(r0, r, id, -1) && id in held
    ensures Accounted(l, lh, r, held - {id})
  {
  }

  lemma TwoReferences(l: Layout, lh: seq<nat>, s: seq<Buf>, view: Disk, refs: map<Id, nat>, held: set<Id>, b: nat,
      id: Id)
    requires Accounted(l, lh, refs, held) && Holds(s, view, refs, b, id) && id in held && id.0 == l.dev && id.1 in lh
    ensures refs[id] == 2
  {
  }

  lemma HoldsKey(s: seq<Buf>, view: Disk, refs: map<Id, nat>, b: nat, id: Id)
    requires Holds(s, view, refs, b, id)
    ensures b < |s| && s[b].blockno == id.1 && s[b].data == view[id] && id in view
  {
  }

  lemma AppendLoggable(l: Layout, d: Disk, view: Disk, lh: seq<nat>, b: nat)
    requires CanCommit(l, d, view, lh) && b !in lh && !LogFull(|lh|, l.size) && l.Home(b) in d && !l.InLog(l.Home(b))
    ensures CanCommit(l, d, view, lh + [b])
  {
  }

  lemma ModifyKeepsCommit(l: Layout, d: Disk, view: Disk, lh: seq<nat>, id: Id, words: Words)
    requires CanCommit(l, d, view, lh) && id in view
    ensures CanCommit(l, d, view[id := words], lh)
  {
  }

  lemma KeysAgree(s: seq<Buf>, order: seq<nat>, disk: Disk, view: Disk, refs: map<Id, nat>, held: set<Id>)
    requires CacheOk(s, order, disk, view, refs, held)
    ensures disk.Keys == view.Keys == refs.Keys
  {
  }

  /** The loop of read_head. */
  method CopyTargets(h: Words) returns (lh: seq<nat>)
    requires HeaderOk(h)
    ensures lh == Targets(h)
  {
    lh := [];
    while |lh| < h[0]
      invariant |lh| <= h[0] && lh == h[1..1 + |lh|]
    {
      lh := lh + [h[1 + |lh|]];
    }
  }

  /** x and y have one reference more. */
  ghost predicate Twice(r0: map<Id, nat>, r: map<Id, nat>, x: Id, y: Id) {
    x in r0 && y in r0 && r == r0[x := r0[x] + 1][y := r0[y] + 1]
  }

  lemma TwiceCommutes(r0: map<Id, nat>, r: map<Id, nat>, x: Id, y: Id)
    requires x != y
    ensures Twice(r0, r, x, y) <==> Twice(r0, r, y, x)
  {
    if x in r0 && y in r0 {
      assert r0[x := r0[x] + 1][y := r0[y] + 1] == r0[y := r0[y] + 1][x := r0[x] + 1];
    }
  }

  lemma BumpedTwice(r0: map<Id, nat>, r1: map<Id, nat>, r2: map<Id, nat>, x: Id, y: Id)
    requires Bumped(r0, r1, x, 1) && Bumped(r1, r2, y, 1) && x != y
    ensures Twice(r0, r2, x, y)
  {
  }

  lemma Unpinned(r0: map<Id, nat>, r2: map<Id, nat>, r3: map<Id, nat>, from: Id, to: Id)
    requires from in r0 && from != to && r2 == r0[from := r0[from] + 1][to := 2] && Bumped(r2, r3, to, -1)
    ensures r3 == r0[from := r0[from] + 1][to := 1]
  {
  }

  lemma Balanced(r0: map<Id, nat>, r3: map<Id, nat>, r4: map<Id, nat>, r5: map<Id, nat>, from: Id, to: Id)
    requires from in r0 && from != to && r3 == r0[from := r0[from] + 1][to := 1]
    requires Bumped(r3, r4, from, -1) && Bumped(r4, r5, to, -1)
    ensures r5 == r0[to := 0]
  {
  }

  /** The first k of the writes ws have been performed. */
  ghost predicate Progress(d0: Disk, w0: seq<Write>, ws: seq<Write>, k: nat, d: Disk, w: seq<Write>) {
    k <= |ws| && d == Apply(d0, ws[..k]) && w == w0 + ws[..k]
  }

  lemma ProgressStep(d0: Disk, w0: seq<Write>, ws: seq<Write>, k: nat, d: Disk, w: seq<Write>, d': Disk, w': seq<Write>)
    requires Progress(d0, w0, ws, k, d, w) && k < |ws|
    requires d' == d[ws[k].0 := ws[k].1] && w' == w + [ws[k]]
    ensures Progress(d0, w0, ws, k + 1, d', w')
  {
    assert ws[..k + 1][..k] == ws[..k] && ws[..k + 1] == ws[..k] + [ws[k]];
  }

  lemma HeadingOne(l: Layout, d: Disk, w: seq<Write>, view: Disk, lh: seq<nat>)
    requires l.Header() in d && |lh| < |d[l.Header()]|
    ensures Heading(l, d, w, lh, 0, d, w)
    ensures var words := HeaderWords(d[l.Header()], lh);
      && Heading(l, d, w, lh, 1, d[l.Header() := words], w + [(l.Header(), words)])
      && HeaderOnly(l, view, view[l.Header() := words])
  {
    var ws := [(l.Header(), HeaderWords(d[l.Header()], lh))];
    ProgressStep(d, w, ws, 0, d, w, d[l.Header() := ws[0].1], w + [ws[0]]);
  }

  lemma Undone(r0: map<Id, nat>, r1: map<Id, nat>, r2: map<Id, nat>, id: Id)
    requires Bumped(r0, r1, id, 1) && Bumped(r1, r2, id, -1)
    ensures r2 == r0
  {
  }

  /** Progress on a list is progress on any longer one. */
  lemma ProgressPrefix(d0: Disk, w0: seq<Write>, ws: seq<Write>, vs: seq<Write>, k: nat, d: Disk, w: seq<Write>)
    requires Progress(d0, w0, ws, k, d, w)
    ensures Progress(d0, w0, ws + vs, k, d, w)
  {
    assert (ws + vs)[..k] == ws[..k];
  }

  lemma ProgressChain(d0: Disk, w0: seq<Write>, ws: seq<Write>, d1: Disk, w1: seq<Write>, vs: seq<Write>, k: nat,
      d: Disk, w: seq<Write>)
    requires Progress(d0, w0, ws, |ws|, d1, w1) && Progress(d1, w1, vs, k, d, w)
    ensures Progress(d0, w0, ws + vs, |ws| + k, d, w)
  {
    assert ws[..|ws|] == ws && (ws + vs)[..|ws| + k] == ws + vs[..k];
    ApplyConcat(d0, ws, vs[..k]);
  }

  lemma ProgressAll(d0: Disk, w0: seq<Write>, ws: seq<Write>, d: Disk, w: seq<Write>)
    requires Progress(d0, w0, ws, |ws|, d, w)
    ensures d == Apply(d0, ws) && w == w0 + ws
  {
    assert ws[..|ws|] == ws;
  }

  // What each procedure has done to the disk after k of its writes.

  ghost predicate Logging(l: Layout, d0: Disk, w0: seq<Write>, v0: Disk, lh: seq<nat>, k: nat, d: Disk, w: seq<Write>) {
    (forall i | 0 <= i < |lh| :: l.Home(lh[i]) in v0) && Progress(d0, w0, LogWrites(l, v0, lh), k, d, w)
  }

  ghost predicate Heading(l: Layout, d0: Disk, w0: seq<Write>, lh: seq<nat>, k: nat, d: Disk, w: seq<Write>) {
    && l.Header() in d0 && |lh| < |d0[l.Header()]|
    && Progress(d0, w0, [(l.Header(), HeaderWords(d0[l.Header()], lh))], k, d, w)
  }

  ghost predicate Installing(l: Layout, d0: Disk, w0: seq<Write>, lh: seq<nat>, k: nat, d: Disk, w: seq<Write>) {
    (forall i: nat | i < |lh| :: l.Log(i) in d0) && Progress(d0, w0, InstallWrites(l, d0, lh), k, d, w)
  }

  ghost predicate Recovering(l: Layout, d0: Disk, w0: seq<Write>, k: nat, d: Disk, w: seq<Write>) {
    LogOk(l, d0) && Progress(d0, w0, RecoverWrites(l, d0), k, d, w)
  }

  ghost predicate Committing(l: Layout, d0: Disk, w0: seq<Write>, v0: Disk, lh: seq<nat>, k: nat, d: Disk,
      w: seq<Write>) {
    CanCommit(l, d0, v0, lh) && Progress(d0, w0, CommitOf(l, d0, v0, lh), k, d, w)
  }

  /** The cache's view after the first k log blocks are installed. */
  ghost predicate Installed(l: Layout, d: Disk, view: Disk, lh: seq<nat>, k: nat, view': Disk) {
    (forall i: nat | i < |lh| :: l.Log(i) in d) && k <= |lh| && view' == Apply(view, InstallWrites(l, d, lh)[..k])
  }

  /** The views agree but for the header block. */
  ghost predicate HeaderOnly(l: Layout, view: Disk, view': Disk) {
    l.Header() in view' && view' == view[l.Header() := view'[l.Header()]]
  }

  /** The cache's view after the log blocks are installed and the header erased. */
  ghost predicate Erased(l: Layout, d: Disk, view: Disk, lh: seq<nat>, view': Disk) {
    exists v :: Installed(l, d, view, lh, |lh|, v) && HeaderOnly(l, v, view')
  }

  /** commit's number of disk writes. */
  function CommitLength(n: nat): nat {
    if n == 0 then 0 else 2 * n + 2
  }

  lemma CommitHasLength(l: Layout, d: Disk, view: Disk, lh: seq<nat>)
    requires CanCommit(l, d, view, lh)
    ensures |CommitOf(l, d, view, lh)| == CommitLength(|lh|)
  {
  }

  /** Wherever Commit stopped, Recover finds a log it accepts and leaves the old home blocks, or the
      new ones of the whole transaction; the new ones exactly when the header had been written. */
  lemma CommitSurvivesCrash(l: Layout, d0: Disk, w0: seq<Write>, v0: Disk, lh: seq<nat>, k: nat, d: Disk, w: seq<Write>)
    requires Committing(l, d0, w0, v0, lh, k, d, w)
    ensures LogOk(l, d)
    ensures SameHome(l, if k > |lh| then Wal.After(l, d0, v0, lh) else d0, Recovered(l, d))
  {
    CommitIsAtomic(l, d0, v0, lh, k);
  }

  // The stages of commit.

  lemma CommitNothing(l: Layout, d: Disk, w: seq<Write>, view: Disk)
    requires CanCommit(l, d, view, [])
    ensures Committing(l, d, w, view, [], 0, d, w)
  {
  }

  lemma StageLog(l: Layout, d0: Disk, w0: seq<Write>, v0: Disk, lh: seq<nat>, k: nat, d: Disk, w: seq<Write>)
    requires CanCommit(l, d0, v0, lh) && lh != [] && Logging(l, d0, w0, v0, lh, k, d, w)
    ensures Committing(l, d0, w0, v0, lh, k, d, w)
  {
    ProgressPrefix(d0, w0, LogWrites(l, v0, lh), CommitOf(l, d0, v0, lh)[|lh|..], k, d, w);
    assert CommitOf(l, d0, v0, lh) == LogWrites(l, v0, lh) + CommitOf(l, d0, v0, lh)[|lh|..];
  }

  lemma AfterLog(l: Layout, d0: Disk, w0: seq<Write>, v0: Disk, lh: seq<nat>, d: Disk, w: seq<Write>)
    requires CanCommit(l, d0, v0, lh) && Logging(l, d0, w0, v0, lh, |lh|, d, w)
    ensures l.size >= 1 && l.Header() in d0 && l.Header() in d && d[l.Header()] == d0[l.Header()]
    ensures |lh| < |d0[l.Header()]|
  {
    LogPrefix(l, d0, v0, lh, |lh|);
  }

  lemma StageHead(l: Layout, d0: Disk, w0: seq<Write>, v0: Disk, lh: seq<nat>, d1: Disk, w1: seq<Write>, k: nat,
      d: Disk, w: seq<Write>)
    requires CanCommit(l, d0, v0, lh) && lh != [] && Logging(l, d0, w0, v0, lh, |lh|, d1, w1)
    requires Heading(l, d1, w1, lh, k, d, w)
    ensures Committing(l, d0, w0, v0, lh, |lh| + k, d, w)
    ensures k == 1 ==> LogOk(l, d) && lh == Targets(d[l.Header()]) && d == AtCommitPoint(l, d0, v0, lh)
  {
    AfterLog(l, d0, w0, v0, lh, d1, w1);
    CommitTail(l, d0, v0, lh);
    CommitPoint(l, d0, v0, lh);
    var ws, h := LogWrites(l, v0, lh), [(l.Header(), HeaderWords(d0[l.Header()], lh))];
    hide LogOk, LogWrites, CommitWrites, RecoverWrites, Targets;
    ProgressAll(d0, w0, ws, d1, w1);
    ProgressChain(d0, w0, ws, d1, w1, h, k, d, w);
    ProgressPrefix(d0, w0, ws + h, RecoverWrites(l, AtCommitPoint(l, d0, v0, lh)), |lh| + k, d, w);
    if k == 1 {
      assert h[..1] == h && h[..0] == [];
      assert d == Apply(d1, h) == d1[h[0].0 := h[0].1];
    }
  }

  lemma Unchanged(l: Layout, view: Disk)
    ensures SameOutside(l, view, view)
  {
  }

  lemma HeaderInside(l: Layout, v0: Disk, view: Disk, view': Disk)
    requires SameOutside(l, v0, view) && l.size >= 1 && HeaderOnly(l, view, view')
    ensures SameOutside(l, v0, view')
  {
  }

  lemma StageInstall(l: Layout, d0: Disk, w0: seq<Write>, v0: Disk, lh: seq<nat>, d1: Disk, w1: seq<Write>, k: nat,
      d: Disk, w: seq<Write>)
    requires CanCommit(l, d0, v0, lh) && lh != [] && d1 == AtCommitPoint(l, d0, v0, lh)
    requires Committing(l, d0, w0, v0, lh, |lh| + 1, d1, w1) && Recovering(l, d1, w1, k, d, w)
    ensures Committing(l, d0, w0, v0, lh, |lh| + 1 + k, d, w)
  {
    CommitTail(l, d0, v0, lh);
    var head, tail := LogWrites(l, v0, lh) + [(l.Header(), HeaderWords(d0[l.Header()], lh))], RecoverWrites(l, d1);
    assert (head + tail)[..|lh| + 1] == head[..|lh| + 1];
    hide LogWrites, CommitWrites, RecoverWrites, LogOk, CanCommit, Apply;
    assert Progress(d0, w0, head, |lh| + 1, d1, w1);
    ProgressChain(d0, w0, head, d1, w1, tail, k, d, w);
  }

  lemma StageInstalled(l: Layout, d0: Disk, w0: seq<Write>, lh: seq<nat>, k: nat, d: Disk, w: seq<Write>)
    requires LogOk(l, d0) && lh == Targets(d0[l.Header()]) && Installing(l, d0, w0, lh, k, d, w)
    ensures Recovering(l, d0, w0, k, d, w)
    ensures l.size >= 1 && l.Header() in d && d[l.Header()] == d0[l.Header()] && 0 < |d[l.Header()]|
  {
    var ws := InstallWrites(l, d0, lh);
    ProgressPrefix(d0, w0, ws, [(l.Header(), HeaderWords(d0[l.Header()], []))], k, d, w);
    ApplyElsewhere(d0, ws[..k], l.Header());
  }

  lemma StageErased(l: Layout, d0: Disk, w0: seq<Write>, lh: seq<nat>, d1: Disk, w1: seq<Write>, k: nat, d: Disk,
      w: seq<Write>)
    requires LogOk(l, d0) && lh == Targets(d0[l.Header()])
    requires Installing(l, d0, w0, lh, |lh|, d1, w1) && Heading(l, d1, w1, [], k, d, w)
    requires d1[l.Header()] == d0[l.Header()]
    ensures Recovering(l, d0, w0, |lh| + k, d, w)
  {
    ProgressChain(d0, w0, InstallWrites(l, d0, lh), d1, w1, [(l.Header(), HeaderWords(d0[l.Header()], []))], k, d, w);
  }

  /** Installing what the cache already holds changes nothing outside the log. */
  lemma InstallKeepsView(l: Layout, d0: Disk, v0: Disk, lh: seq<nat>, view: Disk, view': Disk)
    requires CanCommit(l, d0, v0, lh) && SameOutside(l, v0, view)
    requires Erased(l, AtCommitPoint(l, d0, v0, lh), view, lh, view')
    ensures SameOutside(l, v0, view')
  {
    CommitPoint(l, d0, v0, lh);
    var d1 := AtCommitPoint(l, d0, v0, lh);
    var ws := InstallWrites(l, d1, lh);
    assert ws[..|lh|] == ws;
    forall id | id in v0 && !l.InLog(id) ensures id in Apply(view, ws) && Apply(view, ws)[id] == v0[id] {
      if Logged(l, lh, id) {
        ApplyAt(view, ws, IndexOf(lh, id.1));
      } else {
        ApplyElsewhere(view, ws, id);
      }
    }
  }

  lemma {:induction false} DroppedIs(l: Layout, refs: map<Id, nat>, lh: seq<nat>, i: nat, id: Id)
    requires i <= |lh| && forall j | 0 <= j < i :: l.Home(lh[j]) in refs
    ensures id in Dropped(l, refs, lh, i) <==> id in refs
    ensures id in refs ==> Dropped(l, refs, lh, i)[id] == if Logged(l, lh[..i], id) then 0 else refs[id]
  {
    if i > 0 {
      DroppedIs(l, refs, lh, i - 1, id);
      assert lh[..i] == lh[..i - 1] + [lh[i - 1]];
    }
  }

  /** After the last stage the log is open again, and empty. */
  lemma Finished(l: Layout, d0: Disk, w0: seq<Write>, v0: Disk, lh: seq<nat>, r0: map<Id, nat>,
                 s: seq<Buf>, order: seq<nat>, d: Disk, w: seq<Write>, view: Disk, refs: map<Id, nat>)
    requires CanCommit(l, d0, v0, lh) && lh != [] && Accounted(l, lh, r0, {}) && CacheOk(s, order, d, view, refs, {})
    requires Committing(l, d0, w0, v0, lh, CommitLength(|lh|), d, w)
    requires RefsFrom(l, r0, lh, 0, 1) && refs == Dropped(l, r0, lh, |lh|)
    ensures Accounted(l, [], refs, {}) && CanCommit(l, d, view, [])
  {
    KeysAgree(s, order, d, view, refs, {});
    hide CacheOk;
    AllDropped(l, lh, r0);
    FinishedDisk(l, d0, w0, v0, lh, d, w, view);
    hide CanCommit;
  }

  lemma AllDropped(l: Layout, lh: seq<nat>, r0: map<Id, nat>)
    requires Accounted(l, lh, r0, {}) && RefsFrom(l, r0, lh, 0, 1)
    ensures Accounted(l, [], Dropped(l, r0, lh, |lh|), {})
  {
    var refs := Dropped(l, r0, lh, |lh|);
    forall id | id in refs ensures refs[id] == 0 {
      DroppedIs(l, r0, lh, |lh|, id);
      assert lh[..|lh|] == lh;
    }
  }

  lemma FinishedDisk(l: Layout, d0: Disk, w0: seq<Write>, v0: Disk, lh: seq<nat>, d: Disk, w: seq<Write>, view: Disk)
    requires lh != [] && Committing(l, d0, w0, v0, lh, CommitLength(|lh|), d, w) && view.Keys == d.Keys
    ensures CanCommit(l, d, view, [])
  {
    hide LogOk, CommitOf, Loggable, SameHome;
    var ws := CommitOf(l, d0, v0, lh);
    CommitHasLength(l, d0, v0, lh);
    assert ws[..|ws|] == ws;
    RoundIsAtomic(l, d0, Complete(v0, lh));
    NothingLoggable(l, d);
  }

  lemma NothingLoggable(l: Layout, d: Disk)
    requires LogOk(l, d)
    ensures Loggable(l, d, [])
  {
  }

  lemma TargetsLoggable(l: Layout, d: Disk)
    requires LogOk(l, d)
    ensures l.Header() in d && HeaderOk(d[l.Header()]) && Loggable(l, d, Targets(d[l.Header()]))
  {
  }

  lemma RecoverNothing(l: Layout, d: Disk, w: seq<Write>)
    requires LogOk(l, d)
    ensures Recovering(l, d, w, 0, d, w) && |RecoverWrites(l, d)| == |Targets(d[l.Header()])| + 1
  {
  }

  lemma TargetsReferenced(l: Layout, d: Disk, refs: map<Id, nat>, lh: seq<nat>)
    requires LogOk(l, d) && lh == Targets(d[l.Header()]) && d.Keys == refs.Keys
    requires forall id | id in refs :: refs[id] == 0
    ensures RefsFrom(l, refs, lh, 0, 0)
  {
  }

  lemma {:induction false} DroppedZero(l: Layout, refs: map<Id, nat>, lh: seq<nat>, i: nat)
    requires i <= |lh| && forall id | id in refs :: refs[id] == 0
    ensures forall id | id in Dropped(l, refs, lh, i) :: Dropped(l, refs, lh, i)[id] == 0
  {
    if i > 0 {
      DroppedZero(l, refs, lh, i - 1);
    }
  }

  lemma RecoveredOpen(l: Layout, d0: Disk, w0: seq<Write>, k: nat, d: Disk, w: seq<Write>, view: Disk)
    requires view.Keys == d.Keys && Recovering(l, d0, w0, k, d, w) && k == |RecoverWrites(l, d0)|
    ensures d == Recovered(l, d0) && CanCommit(l, d, view, [])
  {
    ProgressAll(d0, w0, RecoverWrites(l, d0), d, w);
    RecoveredIs(l, d0);
  }

  lemma ApplyStep(d: Disk, ws: seq<Write>, k: nat)
    requires k < |ws|
    ensures Apply(d, ws[..k + 1]) == Apply(d, ws[..k])[ws[k].0 := ws[k].1]
  {
    assert ws[..k + 1][..k] == ws[..k];
  }

  /** The references after the first i listed blocks have none. */
  ghost function Dropped(l: Layout, refs: map<Id, nat>, lh: seq<nat>, i: nat): map<Id, nat>
    requires i <= |lh|
  {
    if i == 0 then refs else Dropped(l, refs, lh, i - 1)[l.Home(lh[i - 1]) := 0]
  }

  /** From position i on, the listed blocks have n references each. */
  ghost predicate RefsFrom(l: Layout, refs: map<Id, nat>, lh: seq<nat>, i: nat, n: nat) {
    forall j | i <= j < |lh| :: l.Home(lh[j]) in refs && refs[l.Home(lh[j])] == n
  }

  lemma NextRefs(l: Layout, d: Disk, refs: map<Id, nat>, lh: seq<nat>, i: nat, n: nat)
    requires Loggable(l, d, lh) && i < |lh| && RefsFrom(l, refs, lh, i, n)
    ensures RefsFrom(l, refs[l.Home(lh[i]) := 0], lh, i + 1, n)
    ensures l.Home(lh[i]) in refs && refs[l.Home(lh[i])] == n
  {
  }

  lemma Same(refs: map<Id, nat>, id: Id)
    requires id in refs && refs[id] == 0
    ensures refs[id := 0] == refs
  {
  }

  lemma LogKeeps(l: Layout, d0: Disk, w0: seq<Write>, v0: Disk, lh: seq<nat>, i: nat, d: Disk, w: seq<Write>)
    requires LogOk(l, d0) && Loggable(l, d0, lh) && i < |lh| && Logging(l, d0, w0, v0, lh, i, d, w)
    ensures var from, to := l.Home(lh[i]), l.Log(i);
      from in d && to in d && !l.InLog(from) && l.InLog(to)
  {
    ApplyKeys(d0, LogWrites(l, v0, lh)[..i]);
  }

  lemma LoggingStep(l: Layout, d0: Disk, w0: seq<Write>, v0: Disk, lh: seq<nat>, i: nat, d: Disk, w: seq<Write>,
      view: Disk, d': Disk, w': seq<Write>, view': Disk)
    requires Logging(l, d0, w0, v0, lh, i, d, w) && SameOutside(l, v0, view) && i < |lh|
    requires l.Home(lh[i]) in view && !l.InLog(l.Home(lh[i])) && l.InLog(l.Log(i))
    requires var words := view[l.Home(lh[i])];
      d' == d[l.Log(i) := words] && w' == w + [(l.Log(i), words)] && view' == view[l.Log(i) := words]
    ensures Logging(l, d0, w0, v0, lh, i + 1, d', w') && SameOutside(l, v0, view')
  {
    ProgressStep(d0, w0, LogWrites(l, v0, lh), i, d, w, d', w');
  }

  /** Installing the first blocks leaves the log block and the disk's set of blocks alone. */
  lemma InstallKeeps(l: Layout, d0: Disk, w0: seq<Write>, lh: seq<nat>, i: nat, d: Disk, w: seq<Write>)
    requires LogOk(l, d0) && Loggable(l, d0, lh) && i < |lh| && Installing(l, d0, w0, lh, i, d, w)
    ensures var from, to := l.Log(i), l.Home(lh[i]);
      from in d && from in d0 && to in d && d[from] == d0[from] && l.InLog(from) && !l.InLog(to)
  {
    var ws := InstallWrites(l, d0, lh);
    ApplyKeys(d0, ws[..i]);
    ApplyElsewhere(d0, ws[..i], l.Log(i));
  }

  lemma InstallingStarts(l: Layout, d: Disk, w: seq<Write>, view: Disk, refs: map<Id, nat>, lh: seq<nat>)
    requires LogOk(l, d) && Loggable(l, d, lh)
    ensures Installing(l, d, w, lh, 0, d, w) && Installed(l, d, view, lh, 0, view) && refs == Dropped(l, refs, lh, 0)
  {
  }

  lemma InstallingStep(l: Layout, d0: Disk, w0: seq<Write>, v0: Disk, r0: map<Id, nat>, lh: seq<nat>, i: nat,
                       d: Disk, w: seq<Write>, view: Disk, refs: map<Id, nat>)
    requires Installing(l, d0, w0, lh, i, d, w) && Installed(l, d0, v0, lh, i, view) && i < |lh|
    requires refs == Dropped(l, r0, lh, i)
    ensures l.Log(i) in d0
    ensures var id, words := l.Home(lh[i]), d0[l.Log(i)];
      && Installing(l, d0, w0, lh, i + 1, d[id := words], w + [(id, words)])
      && Installed(l, d0, v0, lh, i + 1, view[id := words])
      && refs[id := 0] == Dropped(l, r0, lh, i + 1)
  {
    var ws := InstallWrites(l, d0, lh);
    ProgressStep(d0, w0, ws, i, d, w, d[ws[i].0 := ws[i].1], w + [ws[i]]);
    ApplyStep(v0, ws, i);
  }

  /** The blocks outside the log area have the same contents. */
  ghost predicate SameOutside(l: Layout, view: Disk, view': Disk) {
    forall id | id in view && !l.InLog(id) :: id in view' && view'[id] == view[id]
  }
}
