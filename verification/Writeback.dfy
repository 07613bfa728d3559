// The functions of demos/writeback/wb_sim.c as sequences of their lock sections,
// run by a single thread: the loop of writeback_inode, the sweep over all inodes
// and fsync.
module Writeback {
  import opened Options
  import opened Sums
  import opened WritebackSteps

  const IDLE := Inode([], 0, Free, NoFlush)

  // no thread is inside an operation on the inode
  predicate Idle(n: Inode)
  {
    n.holder.Free? && n.flusher.NoFlush?
  }

  // an inode whose flusher is about to take the first of the remaining pages
  function Draining(rest: seq<PageId>): Inode
  {
    Inode(rest, |rest|, Flushing, AtLoop(First(rest)))
  }

  // the device after the given pages of s were written to it
  function WrittenOut(s: State, pages: seq<PageId>): map<PageId, int>
  {
    map p | p in s.disk :: if p in pages && p in s.cache then s.cache[p] else s.disk[p]
  }

  lemma WrittenOutNone(s: State)
    ensures WrittenOut(s, []) == s.disk
  {
  }

  lemma WrittenOutOneMore(s: State, pages: seq<PageId>, p: PageId)
    requires p in s.cache && s.cache.Keys == s.disk.Keys
    ensures WrittenOut(s, pages + [p]) == WrittenOut(s, pages)[p := s.cache[p]]
  {
  }

  lemma NrDirtyIsLength(s: State, i: nat)
    requires Inv(s) && i < |s.inodes|
    ensures s.inodes[i].nrDirty == |s.inodes[i].list| && s.cache.Keys == s.disk.Keys
  {
    hide Counted;
    assert InodeOk(s, i);
  }

  lemma HeadIsNext(s: State, i: nat)
    requires Inv(s) && i < |s.inodes| && s.inodes[i].flusher.AtLoop? && s.inodes[i].flusher.next.Some?
    ensures var n := s.inodes[i];
      && n.list != [] && n.list[0] == n.flusher.next.value && n.list[0] in s.cache && n.holder.Flushing?
      && Delete(n.list, n.list[0]) == n.list[1..]
  {
    hide Counted;
    assert InodeOk(s, i);
  }

  lemma PagesOfInode(s: State, i: nat)
    requires Inv(s) && i < |s.inodes|
    ensures s.inodes[i].nrDirty == |s.inodes[i].list|
    ensures forall p :: p in s.inodes[i].list ==> p.inode == i
  {
    hide Counted;
    assert InodeOk(s, i);
  }

  lemma InodeClean(s: State, i: nat)
    requires Inv(s) && i < |s.inodes| && s.inodes[i] == IDLE
    ensures forall p :: p in s.cache && p.inode == i ==> p !in s.dirty && (p !in s.discarded ==> Synced(s, p))
  {
    hide Counted;
    assert InodeOk(s, i);
  }

  lemma NothingDirty(s: State)
    requires Inv(s) && forall i :: 0 <= i < |s.inodes| ==> s.inodes[i] == IDLE
    ensures s.dirtyCount == 0
    ensures forall p :: p in s.cache ==> p !in s.dirty && (p !in s.discarded ==> Synced(s, p))
  {
    hide Sum, ListOk, FlagsOk, ContentOk;
    SumConstant(Marks, s.inodes, 0);
    SumConstant(Listed, s.inodes, 0);
    SumConstant(CleanUps, s.inodes, 0);
    forall p | p in s.cache
      ensures p !in s.dirty && (p !in s.discarded ==> Synced(s, p))
    {
      InodeClean(s, p.inode);
    }
  }

  class PageCache {
    var s: State

    constructor (inodes: nat, contents: map<PageId, int>)
      requires forall p :: p in contents ==> p.inode < inodes
      ensures Clean(s) && s.cache == contents && |s.inodes| == inodes
    {
      s := State(0, seq(inodes, _ => IDLE), {}, contents, contents, {});
    }

    method Do(a: Action)
      requires Inv(s) && Enabled(true, s, a)
      modifies this
      ensures Inv(s) && s == Next(old(s), a)
    {
      hide Inv;
      StepInv(s, a);
      s := Next(s, a);
    }

    // a store to the page, then mark_page_dirty
    method Write(p: PageId, v: int)
      requires Inv(s) && Enabled(true, s, WritebackSteps.Write(p, v))
      modifies this
      ensures Inv(s)
      ensures s.cache == old(s.cache)[p := v] && s.disk == old(s.disk) && s.dirty == old(s.dirty) + {p}
      ensures s.discarded == old(s.discarded) - {p}
      ensures if p in old(s.dirty) then s.inodes == old(s.inodes) && s.dirtyCount == old(s.dirtyCount)
              else var n := old(s.inodes[p.inode]);
                && s.inodes == old(s.inodes)[p.inode := n.(list := n.list + [p], nrDirty := n.nrDirty + 1)]
                && s.dirtyCount == old(s.dirtyCount) + 1
    {
      hide Inv;
      var marks := p !in s.dirty;
      Do(WritebackSteps.Write(p, v));
      if marks {
        Do(Count(p.inode));
        Do(Unlock(p.inode));
      }
    }

    method UnmarkPageDirty(p: PageId)
      requires Inv(s) && Enabled(true, s, Unmark(p))
      modifies this
      ensures Inv(s)
      ensures s.cache == old(s.cache) && s.disk == old(s.disk) && s.dirty == old(s.dirty) - {p}
      ensures if p !in old(s.dirty) then s == old(s)
              else var n := old(s.inodes[p.inode]);
                && s.inodes == old(s.inodes)[p.inode := n.(list := Delete(n.list, p), nrDirty := n.nrDirty - 1)]
                && s.dirtyCount == old(s.dirtyCount) - 1 && s.discarded == old(s.discarded) + {p}
    {
      hide Inv;
      var unmarks := p in s.dirty;
      Do(Unmark(p));
      if unmarks {
        Do(Count(p.inode));
        Do(Unlock(p.inode));
      }
    }

    // one pass of the loop: take the first page, write it, clear its flag, count it
    method FlushPage(i: nat)
      requires Inv(s) && i < |s.inodes| && s.inodes[i].flusher.AtLoop? && s.inodes[i].flusher.next.Some?
      modifies this
      ensures Inv(s)
      ensures var n := old(s.inodes[i]);
        && n.list != [] && n.list[0] == n.flusher.next.value && n.list[0] in old(s.cache)
        && s == old(s).(
          inodes := old(s.inodes)[i := Inode(n.list[1..], n.nrDirty - 1, Flushing, AtLoop(First(n.list[1..])))],
          disk := old(s.disk)[n.list[0] := old(s.cache)[n.list[0]]],
          dirty := old(s.dirty) - {n.list[0]},
          dirtyCount := old(s.dirtyCount) - 1)
    {
      hide Inv, Delete;
      HeadIsNext(s, i);
      Do(FlushTake(i));
      Do(FlushWrite(i));
      Do(FlushClear(i));
      Do(FlushCount(i));
      Do(FlushRelock(i));
    }

    method WritebackInode(i: nat)
      requires Inv(s) && i < |s.inodes| && Idle(s.inodes[i])
      modifies this
      ensures Inv(s) && s.inodes == old(s.inodes)[i := IDLE]
      ensures s.cache == old(s.cache) && s.discarded == old(s.discarded)
      ensures s.dirtyCount == old(s.dirtyCount) - |old(s.inodes[i].list)|
      ensures s.dirty == old(s.dirty) - set p | p in old(s.inodes[i].list)
      ensures s.disk == WrittenOut(old(s), old(s.inodes[i].list))
    {
      hide Inv;
      ghost var list := s.inodes[i].list;
      ghost var done := 0;
      NrDirtyIsLength(s, i);
      WrittenOutNone(s);
      Do(FlushBegin(i));
      while s.inodes[i].flusher.next.Some?
        invariant Inv(s) && done <= |list| && i < |s.inodes| && s.inodes[i] == Draining(list[done..])
        invariant s.inodes == old(s.inodes)[i := s.inodes[i]]
        invariant s.cache == old(s.cache) && s.discarded == old(s.discarded)
        invariant s.dirtyCount == old(s.dirtyCount) - done
        invariant s.dirty == old(s.dirty) - set p | p in list[..done]
        invariant s.disk == WrittenOut(old(s), list[..done])
        decreases |list| - done
      {
        FlushPage(i);
        WrittenOutOneMore(old(s), list[..done], list[done]);
        done := done + 1;
        assert list[..done] == list[..done - 1] + [list[done - 1]];
      }
      Do(FlushEnd(i));
      assert list[..done] == list;
    }

    /** sync(): every page that was not discarded is on the device, and nothing is dirty. */
    method WritebackAllInodes()
      requires Inv(s) && forall i :: 0 <= i < |s.inodes| ==> Idle(s.inodes[i])
      modifies this
      ensures Inv(s) && s.cache == old(s.cache) && s.discarded == old(s.discarded)
      ensures s.inodes == seq(|old(s.inodes)|, _ => IDLE) && s.dirtyCount == 0
      ensures forall p :: p in s.cache ==> p !in s.dirty && (p !in s.discarded ==> Synced(s, p))
    {
      hide Inv, WrittenOut;
      var i := 0;
      while i < |s.inodes|
        invariant Inv(s) && i <= |s.inodes| == |old(s.inodes)|
        invariant s.cache == old(s.cache) && s.discarded == old(s.discarded)
        invariant forall k :: 0 <= k < i ==> s.inodes[k] == IDLE
        invariant forall k :: i <= k < |s.inodes| ==> Idle(s.inodes[k])
      {
        NrDirtyIsLength(s, i);
        if s.inodes[i].nrDirty > 0 {
          WritebackInode(i);
        }
        i := i + 1;
      }
      NothingDirty(s);
    }

    /** fsync(): the wait loop ends at its first test, with every page of the inode on the device. */
    method FsyncInode(i: nat)
      requires Inv(s) && i < |s.inodes| && Idle(s.inodes[i])
      modifies this
      ensures Inv(s) && s.cache == old(s.cache) && s.discarded == old(s.discarded)
      ensures s.inodes == old(s.inodes)[i := IDLE] && FsyncReturns(s, i)
      ensures forall p :: p in s.cache && p.inode == i ==> p !in s.dirty && (p !in s.discarded ==> Synced(s, p))
      ensures forall p :: p in s.disk && p.inode != i ==> p in old(s.disk) && s.disk[p] == old(s.disk)[p]
    {
      hide Inv;
      PagesOfInode(s, i);
      if s.inodes[i].nrDirty > 0 {
        WritebackInode(i);
      }
      InodeClean(s, i);
    }
  }
}
