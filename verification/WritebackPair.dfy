// Two flushers on one inode of demos/writeback/wb_sim.c, as when fsync and the
// flush thread work on the same file. Each runs the steps of WritebackSteps; they
// share the list, the lock and the single flag writeback_in_progress.
module WritebackPair {
  import opened Options
  import opened WritebackSteps

  // the flusher of the inode in `s` is the first one, `second` is the other
  datatype Pair = Pair(s: State, second: Flusher, inProgress: bool)

  datatype Turn = Turn(bySecond: bool, action: Action)

  function WithFlusher(s: State, i: nat, f: Flusher): State
    requires i < |s.inodes|
  {
    s.(inodes := s.inodes[i := s.inodes[i].(flusher := f)])
  }

  // the same pair with the roles of the flushers exchanged
  function Swap(c: Pair, i: nat): Pair
    requires i < |c.s.inodes|
  {
    Pair(WithFlusher(c.s, i, c.second), c.s.inodes[i].flusher, c.inProgress)
  }

  function Seen(c: Pair, i: nat, t: Turn): Pair
    requires i < |c.s.inodes|
  {
    if t.bySecond then Swap(c, i) else c
  }

  // a step of the inode's flusher
  predicate Flushes(a: Action, i: nat)
  {
    InodeOf(a) == i && !a.Write? && !a.Unmark? && !a.Count? && !a.Unlock?
  }

  // Stores and unmarks respect both flushers. Without `overlap` a flush of the
  // inode begins only while writeback_in_progress is false.
  predicate PairEnabled(overlap: bool, c: Pair, i: nat, t: Turn)
  {
    && i < |c.s.inodes|
    && Enabled(true, Seen(c, i, t).s, t.action)
    && (!Flushes(t.action, i) ==> Enabled(true, c.s, t.action) && Enabled(true, Swap(c, i).s, t.action))
    && (!overlap && t.action == FlushBegin(i) ==> !c.inProgress)
  }

  function PairNext(c: Pair, i: nat, t: Turn): Pair
    requires PairEnabled(true, c, i, t)
  {
    var before := Seen(c, i, t);
    var flag := if t.action == FlushBegin(i) then true else if t.action == FlushEnd(i) then false else c.inProgress;
    Seen(Pair(Next(before.s, t.action), before.second, flag), i, t)
  }

  ghost predicate PairLeads(overlap: bool, c: Pair, i: nat, ts: seq<Turn>, c': Pair)
    decreases |ts|
  {
    if ts == [] then c == c'
    else PairEnabled(overlap, c, i, ts[0]) && PairLeads(overlap, PairNext(c, i, ts[0]), i, ts[1..], c')
  }

  function Actions(ts: seq<Turn>): (acts: seq<Action>)
    ensures |acts| == |ts| && forall k :: 0 <= k < |ts| ==> acts[k] == ts[k].action
  {
    if ts == [] then [] else [ts[0].action] + Actions(ts[1..])
  }

  function Start(s: State): Pair
  {
    Pair(s, NoFlush, false)
  }

  // the exit test of fsync_inode
  predicate FsyncTest(c: Pair, i: nat)
  {
    i < |c.s.inodes| && c.s.inodes[i].nrDirty == 0 && !c.inProgress
  }

  /**
   * What fsync promises, over every clean start and every run: when its exit test
   * holds, the device has the last written value of each page of the inode that
   * was never unmarked.
   */
  ghost predicate FsyncDurable(overlap: bool)
  {
    forall s, i, ts, c, p: PageId ::
      Clean(s) && p in s.cache && p.inode == i && PairLeads(overlap, Start(s), i, ts, c)
      && FsyncTest(c, i) && Unmark(p) !in Actions(ts) ==>
        p in c.s.disk && c.s.disk[p] == LastWrite(Actions(ts), p, s.cache[p])
  }

  // ----- Runs without overlap are runs with one flusher

  // at most one flusher is at work, and the flag tells whether one is
  ghost predicate Alone(c: Pair, i: nat)
  {
    && i < |c.s.inodes|
    && (c.s.inodes[i].flusher.NoFlush? || c.second.NoFlush?)
    && (c.inProgress <==> !c.s.inodes[i].flusher.NoFlush? || !c.second.NoFlush?)
  }

  // the state with whichever flusher is at work
  function View(c: Pair, i: nat): State
    requires i < |c.s.inodes|
  {
    if c.second.NoFlush? then c.s else WithFlusher(c.s, i, c.second)
  }

  // what other threads do does not depend on the flusher
  lemma OthersCommute(s: State, i: nat, f: Flusher, a: Action)
    requires i < |s.inodes| && !Flushes(a, i) && Enabled(false, s, a)
    ensures Enabled(false, WithFlusher(s, i, f), a)
    ensures |Next(s, a).inodes| == |s.inodes| && Next(s, a).inodes[i].flusher == s.inodes[i].flusher
    ensures Next(WithFlusher(s, i, f), a) == WithFlusher(Next(s, a), i, f)
  {
    hide Delete;
    var t := WithFlusher(s, i, f);
    assert Next(t, a).inodes == WithFlusher(Next(s, a), i, f).inodes;
  }

  lemma OtherStep(c: Pair, i: nat, t: Turn)
    requires PairEnabled(false, c, i, t) && Alone(c, i) && !Flushes(t.action, i)
    ensures Enabled(true, View(c, i), t.action)
    ensures Alone(PairNext(c, i, t), i) && View(PairNext(c, i, t), i) == Next(View(c, i), t.action)
  {
    assert Enabled(false, c.s, t.action);
    hide Enabled, Next;
    OthersCommute(c.s, i, c.second, t.action);
    var c' := PairNext(c, i, t);
    assert c'.s.inodes == Next(c.s, t.action).inodes;
  }

  lemma FlusherStep(c: Pair, i: nat, t: Turn)
    requires PairEnabled(false, c, i, t) && Alone(c, i) && Flushes(t.action, i)
    ensures Enabled(true, View(c, i), t.action)
    ensures Alone(PairNext(c, i, t), i) && View(PairNext(c, i, t), i) == Next(View(c, i), t.action)
  {
  }

  lemma {:induction false} OneAtATime(c: Pair, i: nat, ts: seq<Turn>, c': Pair)
    requires PairLeads(false, c, i, ts, c') && Alone(c, i)
    ensures Alone(c', i) && Leads(true, View(c, i), Actions(ts), View(c', i))
    decreases |ts|
  {
    hide Enabled, Next, Alone, View, PairNext;
    if ts != [] {
      if Flushes(ts[0].action, i) {
        FlusherStep(c, i, ts[0]);
      } else {
        OtherStep(c, i, ts[0]);
      }
      OneAtATime(PairNext(c, i, ts[0]), i, ts[1..], c');
    }
  }

  lemma StepCache(s: State, a: Action, p: PageId)
    requires Enabled(true, s, a) && p in s.cache
    ensures Enabled(false, s, a) && |Next(s, a).inodes| == |s.inodes| && p in Next(s, a).cache
    ensures Next(s, a).cache[p] == if a.Write? && a.page == p then a.data else s.cache[p]
  {
    hide Delete;
  }

  lemma {:induction false} PairCacheHoldsLastWrite(overlap: bool, c: Pair, i: nat, ts: seq<Turn>, c': Pair, p: PageId)
    requires PairLeads(overlap, c, i, ts, c') && p in c.s.cache
    ensures p in c'.s.cache && c'.s.cache[p] == LastWrite(Actions(ts), p, c.s.cache[p])
    decreases |ts|
  {
    if ts != [] {
      hide Next, Enabled;
      assert Actions(ts)[1..] == Actions(ts[1..]);
      StepCache(Seen(c, i, ts[0]).s, ts[0].action, p);
      PairCacheHoldsLastWrite(overlap, PairNext(c, i, ts[0]), i, ts[1..], c', p);
    }
  }

  /** Without overlap fsync keeps its promise. */
  lemma AloneIsDurable(s: State, ts: seq<Turn>, c: Pair, p: PageId)
    requires Clean(s) && p in s.cache && PairLeads(false, Start(s), p.inode, ts, c)
    requires FsyncTest(c, p.inode) && Unmark(p) !in Actions(ts)
    ensures p in c.s.disk && c.s.disk[p] == LastWrite(Actions(ts), p, s.cache[p])
  {
    hide PairLeads, Leads, LastWrite;
    OneAtATime(Start(s), p.inode, ts, c);
    FsyncIsDurable(s, Actions(ts), View(c, p.inode), p);
  }

  // ----- With overlap it does not

  lemma {:induction false} PairThen(c: Pair, i: nat, ts: seq<Turn>, c': Pair, t: Turn)
    returns (longer: seq<Turn>, c'': Pair)
    requires PairLeads(true, c, i, ts, c') && PairEnabled(true, c', i, t)
    ensures longer == ts + [t] && c'' == PairNext(c', i, t)
    ensures PairLeads(true, c, i, longer, c'')
    decreases |ts|
  {
    hide PairNext, PairEnabled;
    longer, c'' := ts + [t], PairNext(c', i, t);
    if ts == [] {
      assert longer == [t];
      assert PairLeads(true, PairNext(c, i, t), i, [t][1..], c'');
    } else {
      assert longer[1..] == ts[1..] + [t];
      var rest, _ := PairThen(PairNext(c, i, ts[0]), i, ts[1..], c', t);
    }
  }

  ghost predicate NoUnmark(ts: seq<Turn>)
  {
    forall k :: 0 <= k < |ts| ==> !ts[k].action.Unmark?
  }

  // one write
  lemma PageWritten(s: State, p: PageId, v: int) returns (ts: seq<Turn>, c: Pair)
    requires Clean(s) && p in s.cache
    ensures p.inode < |s.inodes| && PairLeads(true, Start(s), p.inode, ts, c) && NoUnmark(ts)
    ensures c == Start(s.(inodes := s.inodes[p.inode := Inode([p], 1, Free, NoFlush)],
                          dirtyCount := 1, dirty := {p}, cache := s.cache[p := v]))
  {
    var i := p.inode;
    ts, c := PairThen(Start(s), i, [], Start(s), Turn(false, Write(p, v)));
    hide PairLeads;
    ts, c := PairThen(Start(s), i, ts, c, Turn(false, Count(i)));
    ts, c := PairThen(Start(s), i, ts, c, Turn(false, Unlock(i)));
    assert c.s.discarded == s.discarded && c.s.dirty == {p} && c.s.inodes[i].list == [p];
    assert c.s.inodes == s.inodes[i := Inode([p], 1, Free, NoFlush)];
  }

  // then the first flusher has the page in flight
  lemma PageInFlight(s: State, p: PageId, v: int) returns (ts: seq<Turn>, c: Pair)
    requires Clean(s) && p in s.cache
    ensures p.inode < |s.inodes| && PairLeads(true, Start(s), p.inode, ts, c) && NoUnmark(ts)
    ensures c == Pair(s.(inodes := s.inodes[p.inode := Inode([], 0, Free, AtWrite(p, None))],
                         dirtyCount := 1, dirty := {p}, cache := s.cache[p := v]), NoFlush, true)
  {
    hide PairLeads;
    var i := p.inode;
    ts, c := PageWritten(s, p, v);
    ts, c := PairThen(Start(s), i, ts, c, Turn(false, FlushBegin(i)));
    ts, c := PairThen(Start(s), i, ts, c, Turn(false, FlushTake(i)));
  }

  /**
   * A second flusher that finds the list empty clears the flag, and the exit test
   * of fsync holds while the first still has a page in flight that the device
   * does not have.
   */
  lemma SecondFlusherEndsFsyncEarly(s: State, p: PageId, v: int) returns (ts: seq<Turn>, c: Pair)
    requires Clean(s) && p in s.cache
    ensures PairLeads(true, Start(s), p.inode, ts, c) && FsyncTest(c, p.inode) && NoUnmark(ts)
    ensures InFlight(c.s.inodes[p.inode]) == Some(p) && c.s.disk == s.disk
    ensures LastWrite(Actions(ts), p, s.cache[p]) == v
  {
    hide PairLeads, LastWrite;
    var i := p.inode;
    ts, c := PageInFlight(s, p, v);
    ts, c := PairThen(Start(s), i, ts, c, Turn(true, FlushBegin(i)));
    ts, c := PairThen(Start(s), i, ts, c, Turn(true, FlushEnd(i)));
    PairCacheHoldsLastWrite(true, Start(s), i, ts, c, p);
  }

  /** So fsync keeps its promise exactly when no flush of an inode begins during another. */
  lemma FsyncDurableIff(overlap: bool)
    ensures FsyncDurable(overlap) <==> !overlap
  {
    hide PairLeads, LastWrite, Clean, FsyncTest;
    if !overlap {
      forall s, i, ts, c, p: PageId |
        Clean(s) && p in s.cache && p.inode == i && PairLeads(overlap, Start(s), i, ts, c)
        && FsyncTest(c, i) && Unmark(p) !in Actions(ts)
        ensures p in c.s.disk && c.s.disk[p] == LastWrite(Actions(ts), p, s.cache[p])
      {
        AloneIsDurable(s, ts, c, p);
      }
    } else {
      var p := PageId(0, 0);
      var s := OnePage(p);
      var ts, c := SecondFlusherEndsFsyncEarly(s, p, 1);
      assert Unmark(p) !in Actions(ts);
      assert c.s.disk[p] == 0;
    }
  }
}
