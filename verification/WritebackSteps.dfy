// Page write-back of demos/writeback/wb_sim.c under interleaving: any number of
// threads, each inode with its lock, and the global counter updated under a lock
// of its own. An inode's lock has at most one holder and an inode has at most one
// flusher, so both are recorded with the inode, at the granularity of the lock
// sections of the source.
module WritebackSteps {
  import opened Options
  import opened Sums

  datatype PageId = PageId(inode: nat, index: nat)

  // what the holder of an inode's lock still has to do
  datatype Holder =
    | Free
    | Marking(page: PageId)     // page on the list, counter not yet incremented
    | Unmarking(page: PageId)   // page off the list, counter not yet decremented
    | Leaving                   // counter updated, lock not yet released
    | Flushing                  // the flusher, at its loop test

  // where an inode's flusher is; `next` is the page saved by list_for_each_safe
  datatype Flusher =
    | NoFlush
    | AtLoop(next: Option<PageId>)                  // lock held
    | AtWrite(page: PageId, next: Option<PageId>)   // page taken off the list, lock released
    | AtClear(page: PageId, next: Option<PageId>)   // page written to the device
    | AtCount(page: PageId, next: Option<PageId>)   // page flag cleared
    | AtRelock(next: Option<PageId>)                // counter decremented

  datatype Inode = Inode(list: seq<PageId>, nrDirty: int, holder: Holder, flusher: Flusher)

  datatype State = State(
    dirtyCount: int,
    inodes: seq<Inode>,
    dirty: set<PageId>,             // page->dirty
    cache: map<PageId, int>,        // contents of the cached pages
    disk: map<PageId, int>,
    discarded: set<PageId>)         // pages whose last change unmark_page_dirty threw away

  datatype Action =
    | Write(page: PageId, data: int)   // a store to the page, then mark_page_dirty
    | Unmark(page: PageId)
    | Count(i: nat)                    // the holder updates the global counter
    | Unlock(i: nat)
    | FlushBegin(i: nat)
    | FlushTake(i: nat)
    | FlushWrite(i: nat)
    | FlushClear(i: nat)
    | FlushCount(i: nat)
    | FlushRelock(i: nat)
    | FlushEnd(i: nat)

  function InodeOf(a: Action): nat
  {
    if a.Write? || a.Unmark? then a.page.inode else a.i
  }

  function InFlight(n: Inode): Option<PageId>
  {
    if n.flusher.AtWrite? || n.flusher.AtClear? then Some(n.flusher.page) else None
  }

  function SavedNext(n: Inode): Option<PageId>
  {
    if n.flusher.NoFlush? then None else n.flusher.next
  }

  function First(list: seq<PageId>): Option<PageId>
  {
    if list == [] then None else Some(list[0])
  }

  function Delete(list: seq<PageId>, p: PageId): seq<PageId>
  {
    if list == [] then [] else if list[0] == p then list[1..] else [list[0]] + Delete(list[1..], p)
  }

  // the flusher has written this page out and has yet to clear its flag
  predicate InWindow(n: Inode, p: PageId)
  {
    n.flusher.AtClear? && n.flusher.page == p
  }

  // With `guarded`, no thread stores to a page between its device write and the
  // clearing of its flag, nor unmarks a page a flusher has in flight or goes to next.
  predicate Enabled(guarded: bool, s: State, a: Action)
  {
    InodeOf(a) < |s.inodes| &&
    var n := s.inodes[InodeOf(a)];
    match a
    case Write(p, v) => p in s.cache && n.holder.Free? && (guarded ==> !InWindow(n, p))
    case Unmark(p) => p in s.cache && n.holder.Free? && (guarded ==> InFlight(n) != Some(p) && SavedNext(n) != Some(p))
    case Count(_) => n.holder.Marking? || n.holder.Unmarking?
    case Unlock(_) => n.holder.Leaving?
    case FlushBegin(_) => n.holder.Free? && n.flusher.NoFlush?
    case FlushTake(_) => n.flusher.AtLoop? && n.flusher.next.Some?
    case FlushWrite(_) => n.flusher.AtWrite? && n.flusher.page in s.cache
    case FlushClear(_) => n.flusher.AtClear?
    case FlushCount(_) => n.flusher.AtCount?
    case FlushRelock(_) => n.flusher.AtRelock? && n.holder.Free?
    case FlushEnd(_) => n.flusher.AtLoop? && n.flusher.next.None?
  }

  function Next(s: State, a: Action): State
    requires Enabled(false, s, a)
  {
    var i := InodeOf(a);
    var n := s.inodes[i];
    match a
    case Write(p, v) =>
      var s1 := s.(cache := s.cache[p := v], discarded := s.discarded - {p});
      if p in s.dirty then s1
      else s1.(inodes := s.inodes[i := n.(list := n.list + [p], nrDirty := n.nrDirty + 1, holder := Marking(p))],
               dirty := s.dirty + {p})
    case Unmark(p) =>
      if p !in s.dirty then s
      else s.(inodes := s.inodes[i := n.(list := Delete(n.list, p), nrDirty := n.nrDirty - 1, holder := Unmarking(p))],
              dirty := s.dirty - {p}, discarded := s.discarded + {p})
    case Count(_) =>
      s.(inodes := s.inodes[i := n.(holder := Leaving)],
         dirtyCount := s.dirtyCount + if n.holder.Marking? then 1 else -1)
    case Unlock(_) => s.(inodes := s.inodes[i := n.(holder := Free)])
    case FlushBegin(_) => s.(inodes := s.inodes[i := n.(holder := Flushing, flusher := AtLoop(First(n.list)))])
    case FlushTake(_) =>
      var p := n.flusher.next.value;
      var rest := Delete(n.list, p);
      s.(inodes := s.inodes[i := Inode(rest, n.nrDirty - 1, Free, AtWrite(p, First(rest)))])
    case FlushWrite(_) =>
      s.(disk := s.disk[n.flusher.page := s.cache[n.flusher.page]],
         inodes := s.inodes[i := n.(flusher := AtClear(n.flusher.page, n.flusher.next))])
    case FlushClear(_) =>
      s.(dirty := s.dirty - {n.flusher.page},
         inodes := s.inodes[i := n.(flusher := AtCount(n.flusher.page, n.flusher.next))])
    case FlushCount(_) =>
      s.(dirtyCount := s.dirtyCount - 1, inodes := s.inodes[i := n.(flusher := AtRelock(n.flusher.next))])
    case FlushRelock(_) => s.(inodes := s.inodes[i := n.(holder := Flushing, flusher := AtLoop(n.flusher.next))])
    case FlushEnd(_) => s.(inodes := s.inodes[i := n.(holder := Free, flusher := NoFlush)])
  }

  ghost predicate Leads(guarded: bool, s: State, acts: seq<Action>, s': State)
    decreases |acts|
  {
    if acts == [] then s == s'
    else Enabled(guarded, s, acts[0]) && Leads(guarded, Next(s, acts[0]), acts[1..], s')
  }

  // a system with nothing dirty
  ghost predicate Clean(s: State)
  {
    && s.dirtyCount == 0 && s.dirty == {} && s.disk == s.cache && s.discarded == {}
    && (forall p :: p in s.cache ==> p.inode < |s.inodes|)
    && forall i :: 0 <= i < |s.inodes| ==> s.inodes[i] == Inode([], 0, Free, NoFlush)
  }

  // ----- The counter

  function Listed(n: Inode): nat { |n.list| }

  // marks whose increment is still to come
  function Marks(n: Inode): nat { if n.holder.Marking? then 1 else 0 }

  // clean-ups whose decrement is still to come
  function CleanUps(n: Inode): nat
  {
    (if n.flusher.AtWrite? || n.flusher.AtClear? || n.flusher.AtCount? then 1 else 0)
    + if n.holder.Unmarking? then 1 else 0
  }

  ghost predicate Counted(s: State)
  {
    s.dirtyCount + Sum(Marks, s.inodes) == Sum(Listed, s.inodes) + Sum(CleanUps, s.inodes)
  }

  // ----- One inode

  ghost predicate Distinct(list: seq<PageId>)
  {
    forall x, y :: 0 <= x < y < |list| ==> list[x] != list[y]
  }

  ghost predicate ListOk(s: State, i: nat)
    requires i < |s.inodes|
  {
    var n := s.inodes[i];
    && n.nrDirty == |n.list|
    && Distinct(n.list)
    && (forall p :: p in n.list ==> p.inode == i && p in s.cache)
    && (n.holder.Marking? ==> n.list != [])
    && (n.holder.Flushing? <==> n.flusher.AtLoop?)
    && (SavedNext(n).Some? ==> First(n.list) == SavedNext(n))
  }

  ghost predicate FlagsOk(s: State, i: nat)
    requires i < |s.inodes|
  {
    var n := s.inodes[i];
    && (InFlight(n).Some? ==> InFlight(n).value.inode == i && InFlight(n).value in s.cache && InFlight(n).value !in n.list)
    && forall p :: p in s.cache && p.inode == i ==> (p in s.dirty <==> p in n.list || InFlight(n) == Some(p))
  }

  ghost predicate ContentOk(s: State, i: nat)
    requires i < |s.inodes|
  {
    var n := s.inodes[i];
    && (n.flusher.AtClear? ==> Synced(s, n.flusher.page))
    && forall p :: p in s.cache && p.inode == i && p !in s.dirty && p !in s.discarded ==> Synced(s, p)
  }

  predicate Synced(s: State, p: PageId)
  {
    p in s.cache && p in s.disk && s.disk[p] == s.cache[p]
  }

  ghost predicate InodeOk(s: State, i: nat)
    requires i < |s.inodes|
  {
    ListOk(s, i) && FlagsOk(s, i) && ContentOk(s, i)
  }

  ghost predicate Inv(s: State)
  {
    && Counted(s)
    && s.disk.Keys == s.cache.Keys
    && (forall p :: p in s.cache ==> p.inode < |s.inodes|)
    && forall i :: 0 <= i < |s.inodes| ==> InodeOk(s, i)
  }

  lemma CleanInv(s: State)
    requires Clean(s)
    ensures Inv(s)
  {
    SumConstant(Marks, s.inodes, 0);
    SumConstant(Listed, s.inodes, 0);
    SumConstant(CleanUps, s.inodes, 0);
  }

  // ----- Every step keeps the invariant

  lemma {:induction false} DeleteSpec(list: seq<PageId>, p: PageId)
    requires Distinct(list)
    ensures var r := Delete(list, p);
      && Distinct(r)
      && (forall q :: q in r <==> q in list && q != p)
      && |r| == |list| - (if p in list then 1 else 0)
      && (list != [] && list[0] != p ==> First(r) == First(list))
      && (list != [] && list[0] == p ==> r == list[1..])
  {
    if list != [] && list[0] != p {
      DeleteSpec(list[1..], p);
      var r := Delete(list[1..], p);
      assert list == [list[0]] + list[1..];
      assert forall q :: q in [list[0]] + r <==> q == list[0] || q in r;
      assert forall y :: 0 <= y < |r| ==> r[y] in list[1..];
    }
  }

  /** The counter equation follows the change made to one inode. */
  lemma CountedAfter(s: State, i: nat, n: Inode, count: int)
    requires Counted(s) && i < |s.inodes|
    requires count - s.dirtyCount + Marks(n) - Marks(s.inodes[i])
          == Listed(n) - Listed(s.inodes[i]) + CleanUps(n) - CleanUps(s.inodes[i])
    ensures Counted(s.(dirtyCount := count, inodes := s.inodes[i := n]))
  {
    SumUpdate(Marks, s.inodes, i, n);
    SumUpdate(Listed, s.inodes, i, n);
    SumUpdate(CleanUps, s.inodes, i, n);
  }

  lemma StepCounted(s: State, a: Action)
    requires Inv(s) && Enabled(true, s, a)
    ensures Counted(Next(s, a))
  {
    hide Sum, Delete, ContentOk;
    var i := InodeOf(a);
    var n := s.inodes[i];
    var s' := Next(s, a);
    assert InodeOk(s, i);
    if a.Unmark? { DeleteSpec(n.list, a.page); }
    if a.FlushTake? { DeleteSpec(n.list, n.flusher.next.value); }
    CountedAfter(s, i, s'.inodes[i], s'.dirtyCount);
    assert s'.inodes == s.inodes[i := s'.inodes[i]];
  }

  lemma WriteKeepsList(s: State, a: Action)
    requires Inv(s) && Enabled(true, s, a) && a.Write?
    ensures ListOk(Next(s, a), a.page.inode) && FlagsOk(Next(s, a), a.page.inode)
  {
    hide Counted, ContentOk;
    var i := a.page.inode;
    var n := s.inodes[i];
    assert InodeOk(s, i);
    assert forall q :: q in n.list + [a.page] <==> q in n.list || q == a.page;
  }

  lemma UnmarkKeepsList(s: State, a: Action)
    requires Inv(s) && Enabled(true, s, a) && a.Unmark?
    ensures ListOk(Next(s, a), a.page.inode) && FlagsOk(Next(s, a), a.page.inode)
  {
    hide Counted, ContentOk, Delete;
    var i := a.page.inode;
    assert InodeOk(s, i);
    DeleteSpec(s.inodes[i].list, a.page);
  }

  lemma TakeKeepsList(s: State, a: Action)
    requires Inv(s) && Enabled(true, s, a) && a.FlushTake?
    ensures ListOk(Next(s, a), a.i) && FlagsOk(Next(s, a), a.i)
  {
    hide Counted, ContentOk, Delete;
    var n := s.inodes[a.i];
    assert InodeOk(s, a.i);
    DeleteSpec(n.list, n.flusher.next.value);
  }

  // the steps that leave the list as it is
  lemma OtherKeepsList(s: State, a: Action)
    requires Inv(s) && Enabled(true, s, a) && !a.Write? && !a.Unmark? && !a.FlushTake?
    ensures ListOk(Next(s, a), a.i) && FlagsOk(Next(s, a), a.i)
  {
    hide Counted, ContentOk, Delete, Distinct;
    var n := s.inodes[a.i];
    var s' := Next(s, a);
    assert InodeOk(s, a.i);
    assert s'.inodes[a.i].list == n.list && s'.cache == s.cache;
  }

  lemma StepList(s: State, a: Action)
    requires Inv(s) && Enabled(true, s, a)
    ensures ListOk(Next(s, a), InodeOf(a))
    ensures FlagsOk(Next(s, a), InodeOf(a))
  {
    hide Inv, Next, Enabled, ListOk, FlagsOk;
    if a.Write? {
      WriteKeepsList(s, a);
    } else if a.Unmark? {
      UnmarkKeepsList(s, a);
    } else if a.FlushTake? {
      TakeKeepsList(s, a);
    } else {
      OtherKeepsList(s, a);
    }
  }

  lemma StepContent(s: State, a: Action)
    requires Inv(s) && Enabled(true, s, a)
    ensures ContentOk(Next(s, a), InodeOf(a))
  {
    hide Counted, Delete;
    var i := InodeOf(a);
    assert InodeOk(s, i);
  }

  // a step leaves the inodes it is not about, and their pages, as they were
  ghost predicate Untouched(s: State, s': State, i: nat)
  {
    && |s'.inodes| == |s.inodes|
    && (forall j :: 0 <= j < |s.inodes| && j != i ==> s'.inodes[j] == s.inodes[j])
    && s'.disk.Keys == s'.cache.Keys == s.cache.Keys
    && (forall p: PageId :: p.inode != i ==> (p in s'.dirty <==> p in s.dirty) && (p in s'.discarded <==> p in s.discarded))
    && (forall p :: p in s.cache && p.inode != i ==> s'.cache[p] == s.cache[p] && (Synced(s', p) <==> Synced(s, p)))
  }

  lemma FlightOfInode(s: State, i: nat)
    requires i < |s.inodes| && FlagsOk(s, i) && InFlight(s.inodes[i]).Some?
    ensures InFlight(s.inodes[i]).value.inode == i && InFlight(s.inodes[i]).value in s.cache
  {
  }

  lemma StepTouchesOne(s: State, a: Action)
    requires Inv(s) && Enabled(true, s, a)
    ensures Untouched(s, Next(s, a), InodeOf(a))
  {
    hide Counted, Delete, ListOk, FlagsOk, ContentOk;
    var n := s.inodes[InodeOf(a)];
    assert InodeOk(s, InodeOf(a));
    if n.flusher.AtWrite? || n.flusher.AtClear? {
      FlightOfInode(s, InodeOf(a));
    }
  }

  lemma StepElsewhere(s: State, s': State, i: nat, j: nat)
    requires Untouched(s, s', i) && j < |s.inodes| && j != i && InodeOk(s, j)
    ensures InodeOk(s', j)
  {
    assert s'.inodes[j] == s.inodes[j];
    assert ListOk(s', j);
    assert forall p :: p in s'.cache ==> p in s.cache;
    assert FlagsOk(s', j);
  }

  lemma StepInv(s: State, a: Action)
    requires Inv(s) && Enabled(true, s, a)
    ensures Inv(Next(s, a))
  {
    hide Counted, ListOk, FlagsOk, ContentOk;
    StepCounted(s, a);
    StepList(s, a);
    StepContent(s, a);
    StepTouchesOne(s, a);
    var s' := Next(s, a);
    forall j | 0 <= j < |s'.inodes|
      ensures InodeOk(s', j)
    {
      if j != InodeOf(a) { StepElsewhere(s, s', InodeOf(a), j); }
    }
  }

  lemma {:induction false} RunInv(s: State, acts: seq<Action>, s': State)
    requires Inv(s) && Leads(true, s, acts, s')
    ensures Inv(s')
    decreases |acts|
  {
    hide Inv;
    if acts != [] {
      StepInv(s, acts[0]);
      RunInv(Next(s, acts[0]), acts[1..], s');
    }
  }

  // ----- The counter never wraps, and counts the dirty pages

  lemma {:induction false} MarksAtMostListed(inodes: seq<Inode>)
    requires forall i :: 0 <= i < |inodes| ==> Marks(inodes[i]) <= Listed(inodes[i])
    ensures Sum(Marks, inodes) <= Sum(Listed, inodes)
  {
    if inodes != [] {
      MarksAtMostListed(inodes[..|inodes| - 1]);
      assert Marks(inodes[|inodes| - 1]) <= Listed(inodes[|inodes| - 1]);
    }
  }

  /** The unsigned counter is never decremented at zero, in any reachable state. */
  lemma NoUnderflow(s: State, acts: seq<Action>, s': State)
    requires Clean(s) && Leads(true, s, acts, s')
    ensures s'.dirtyCount >= Sum(CleanUps, s'.inodes)
    ensures forall a :: Enabled(true, s', a) ==> Next(s', a).dirtyCount >= 0
  {
    hide Leads, Sum;
    CleanInv(s);
    RunInv(s, acts, s');
    forall i | 0 <= i < |s'.inodes|
      ensures Marks(s'.inodes[i]) <= Listed(s'.inodes[i])
    {
      assert InodeOk(s', i);
    }
    MarksAtMostListed(s'.inodes);
    forall a | Enabled(true, s', a)
      ensures Next(s', a).dirtyCount >= 0
    {
      SumAtLeast(CleanUps, s'.inodes, InodeOf(a));
    }
  }

  // no operation is between its list update and its counter update
  ghost predicate Quiet(n: Inode)
  {
    Marks(n) == 0 && CleanUps(n) == 0
  }

  function Pages(inodes: seq<Inode>): (r: set<PageId>)
    ensures forall p :: p in r <==> exists i :: 0 <= i < |inodes| && p in inodes[i].list
  {
    if inodes == [] then {}
    else
      var last := |inodes| - 1;
      var r := Pages(inodes[..last]) + set p | p in inodes[last].list;
      assert forall p, i :: 0 <= i < last && p in inodes[i].list ==> p in inodes[..last][i].list;
      r
  }

  // distinct pages, all of inode i
  ghost predicate OwnPages(i: nat, list: seq<PageId>)
  {
    Distinct(list) && forall p :: p in list ==> p.inode == i
  }

  lemma {:induction false} DistinctSize(list: seq<PageId>)
    requires Distinct(list)
    ensures |set p | p in list| == |list|
  {
    var pages := set p | p in list;
    if list != [] {
      var last := list[|list| - 1];
      var front := list[..|list| - 1];
      DistinctSize(front);
      assert pages == (set p | p in front) + {last};
    }
  }

  lemma {:induction false} PagesSize(inodes: seq<Inode>)
    requires forall i :: 0 <= i < |inodes| ==> OwnPages(i, inodes[i].list)
    ensures |Pages(inodes)| == Sum(Listed, inodes)
  {
    if inodes != [] {
      var last := |inodes| - 1;
      PagesSize(inodes[..last]);
      DistinctSize(inodes[last].list);
      assert Pages(inodes[..last]) !! set p | p in inodes[last].list;
    }
  }

  /** Between operations, the pages on the lists are the dirty pages. */
  lemma ListedAreDirty(s: State, p: PageId)
    requires Inv(s) && forall i :: 0 <= i < |s.inodes| ==> Quiet(s.inodes[i])
    ensures p in Pages(s.inodes) <==> p in s.cache && p in s.dirty
  {
    hide Counted, ContentOk, Distinct;
    if p.inode < |s.inodes| {
      assert Quiet(s.inodes[p.inode]) && InodeOk(s, p.inode);
    }
    if p in Pages(s.inodes) {
      var i :| 0 <= i < |s.inodes| && p in s.inodes[i].list;
      assert InodeOk(s, i);
    }
  }

  /**
   * Whenever no operation is half done, the global counter is the number of dirty
   * pages, and it is the sum of the per-inode counters.
   */
  lemma CountsDirtyPages(s: State, acts: seq<Action>, s': State)
    requires Clean(s) && Leads(true, s, acts, s')
    requires forall i :: 0 <= i < |s'.inodes| ==> Quiet(s'.inodes[i])
    ensures s'.dirtyCount == |set p | p in s'.cache && p in s'.dirty|
    ensures s'.dirtyCount == Sum(Listed, s'.inodes)
    ensures forall i :: 0 <= i < |s'.inodes| ==> s'.inodes[i].nrDirty == Listed(s'.inodes[i])
  {
    hide Leads, Sum, FlagsOk, ContentOk, Pages, Distinct;
    CleanInv(s);
    RunInv(s, acts, s');
    var inodes := s'.inodes;
    SumConstant(Marks, inodes, 0);
    SumConstant(CleanUps, inodes, 0);
    forall i | 0 <= i < |inodes|
      ensures OwnPages(i, inodes[i].list) && inodes[i].nrDirty == Listed(inodes[i])
    {
      assert InodeOk(s', i);
    }
    PagesSize(inodes);
    forall p
      ensures p in Pages(inodes) <==> p in s'.cache && p in s'.dirty
    {
      ListedAreDirty(s', p);
    }
    assert Pages(inodes) == set p | p in s'.cache && p in s'.dirty;
  }

  // ----- What was written is what the device holds

  // the contents a reader gets once clean pages may be dropped from the cache
  function Logical(s: State, p: PageId): int
    requires p in s.cache && p in s.disk
  {
    if p in s.dirty then s.cache[p] else s.disk[p]
  }

  // the value the writes of a run leave in a page that held `data`
  function LastWrite(acts: seq<Action>, p: PageId, data: int): int
    decreases |acts|
  {
    if acts == [] then data
    else LastWrite(acts[1..], p, if acts[0].Write? && acts[0].page == p then acts[0].data else data)
  }

  lemma {:induction false} CacheHoldsLastWrite(guarded: bool, s: State, acts: seq<Action>, s': State, p: PageId)
    requires Leads(guarded, s, acts, s') && p in s.cache && p in s.disk
    ensures p in s'.cache && p in s'.disk && s'.cache[p] == LastWrite(acts, p, s.cache[p])
    ensures |s'.inodes| == |s.inodes|
    ensures p !in s.discarded && Unmark(p) !in acts ==> p !in s'.discarded
    decreases |acts|
  {
    hide Delete;
    if acts != [] {
      assert acts == [acts[0]] + acts[1..];
      CacheHoldsLastWrite(guarded, Next(s, acts[0]), acts[1..], s', p);
    }
  }

  /**
   * In every run a page that was never unmarked reads as its last written value,
   * from the cache while it is dirty and from the device once it is clean: clean
   * pages can be dropped at any moment.
   */
  lemma ReadsLastWrite(s: State, acts: seq<Action>, s': State, p: PageId)
    requires Clean(s) && Leads(true, s, acts, s')
    requires p in s.cache && Unmark(p) !in acts
    ensures p in s'.cache && p in s'.disk && Logical(s', p) == LastWrite(acts, p, s.cache[p])
  {
    hide Leads, LastWrite, ListOk, FlagsOk, Counted;
    CleanInv(s);
    RunInv(s, acts, s');
    CacheHoldsLastWrite(true, s, acts, s', p);
    assert p.inode < |s.inodes|;
    assert InodeOk(s', p.inode);
  }

  // the condition on which fsync_inode returns
  predicate FsyncReturns(s: State, i: nat)
    requires i < |s.inodes|
  {
    s.inodes[i].nrDirty == 0 && s.inodes[i].flusher.NoFlush?
  }

  /** When fsync returns, the device holds the last written value of every page of the inode. */
  lemma FsyncIsDurable(s: State, acts: seq<Action>, s': State, p: PageId)
    requires Clean(s) && Leads(true, s, acts, s')
    requires p in s.cache && Unmark(p) !in acts
    requires p.inode < |s'.inodes| && FsyncReturns(s', p.inode)
    ensures p in s'.disk && s'.disk[p] == LastWrite(acts, p, s.cache[p])
  {
    hide Leads, LastWrite, ContentOk, Counted;
    ReadsLastWrite(s, acts, s', p);
    CleanInv(s);
    RunInv(s, acts, s');
    assert InodeOk(s', p.inode);
  }

  lemma SameButDiscarded(s: State, p: PageId)
    requires Inv(s) && p in s.dirty
    ensures Inv(s.(discarded := s.discarded - {p}))
  {
    hide Sum;
    var s' := s.(discarded := s.discarded - {p});
    forall j | 0 <= j < |s'.inodes|
      ensures InodeOk(s', j)
    {
      assert InodeOk(s, j);
    }
  }

  /**
   * The guard on stores is exact. A store keeps the invariant if and only if it
   * does not fall between the device write and the clearing of the page flag, or
   * stores what was just written out.
   */
  lemma StoreSafeIff(s: State, p: PageId, v: int)
    requires Inv(s) && Enabled(false, s, Write(p, v))
    ensures Inv(Next(s, Write(p, v))) <==> (InWindow(s.inodes[p.inode], p) ==> v == s.disk[p])
  {
    hide Counted;
    var i := p.inode;
    var s' := Next(s, Write(p, v));
    assert InodeOk(s, i);
    if !InWindow(s.inodes[i], p) {
      StepInv(s, Write(p, v));
    } else if v == s.disk[p] {
      assert s'.cache == s.cache;
      assert s' == s.(discarded := s.discarded - {p});
      SameButDiscarded(s, p);
    } else {
      assert !ContentOk(s', i);
      assert !InodeOk(s', i);
    }
  }

  /**
   * In terms of the contents: once the flag is cleared, a page stored to in the
   * window is clean, and the device has its contents if and only if the store
   * repeated what was just written out.
   */
  lemma WindowStoreKeptIff(s: State, p: PageId, v: int)
    requires Inv(s) && Enabled(false, s, Write(p, v)) && InWindow(s.inodes[p.inode], p)
    ensures Enabled(false, Next(s, Write(p, v)), FlushClear(p.inode))
    ensures var s' := Next(Next(s, Write(p, v)), FlushClear(p.inode));
      p !in s'.dirty && s'.disk == s.disk && s'.cache == s.cache[p := v] && (Synced(s', p) <==> v == s.disk[p])
  {
    hide Counted, ListOk, ContentOk;
    assert InodeOk(s, p.inode);
  }

  /**
   * So is the guard on unmarking: it keeps the invariant if and only if no
   * flusher holds the page or goes to it next.
   */
  lemma UnmarkSafeIff(s: State, p: PageId)
    requires Inv(s) && Enabled(false, s, Unmark(p))
    ensures var n := s.inodes[p.inode];
      Inv(Next(s, Unmark(p))) <==> InFlight(n) != Some(p) && SavedNext(n) != Some(p)
  {
    hide Counted, ContentOk;
    var n := s.inodes[p.inode];
    var s' := Next(s, Unmark(p));
    assert InodeOk(s, p.inode);
    if InFlight(n) != Some(p) && SavedNext(n) != Some(p) {
      StepInv(s, Unmark(p));
    } else {
      DeleteSpec(n.list, p);
      assert !ListOk(s', p.inode);
      assert !InodeOk(s', p.inode);
    }
  }

  lemma {:induction false} Then(guarded: bool, s: State, acts: seq<Action>, s': State, a: Action)
    returns (longer: seq<Action>, s'': State)
    requires Leads(guarded, s, acts, s') && Enabled(guarded, s', a) && Enabled(false, s', a)
    ensures longer == acts + [a] && s'' == Next(s', a)
    ensures Leads(guarded, s, longer, s'')
    decreases |acts|
  {
    hide Next;
    longer, s'' := acts + [a], Next(s', a);
    if acts == [] {
      assert longer == [a];
      assert Leads(guarded, Next(s, a), [a][1..], s'');
    } else {
      assert longer[1..] == acts[1..] + [a];
      var rest, _ := Then(guarded, Next(s, acts[0]), acts[1..], s', a);
    }
  }

  ghost predicate NoUnmark(acts: seq<Action>)
  {
    forall k :: 0 <= k < |acts| ==> !acts[k].Unmark?
  }

  // one write to a page of a clean inode
  lemma WriteOnce(guarded: bool, s: State, p: PageId, v: int) returns (acts: seq<Action>, s': State)
    requires Clean(s) && p in s.cache
    ensures Leads(guarded, s, acts, s') && p.inode < |s.inodes| && NoUnmark(acts)
    ensures s' == s.(inodes := s.inodes[p.inode := Inode([p], 1, Free, NoFlush)],
                     dirtyCount := 1, dirty := {p}, cache := s.cache[p := v])
  {
    acts, s' := Then(guarded, s, [], s, Write(p, v));
    hide Leads;
    acts, s' := Then(guarded, s, acts, s', Count(p.inode));
    acts, s' := Then(guarded, s, acts, s', Unlock(p.inode));
    assert s'.discarded == s.discarded && s'.dirty == {p};
    assert s'.inodes[p.inode].list == [p];
    assert s'.inodes == s.inodes[p.inode := Inode([p], 1, Free, NoFlush)];
  }

  // then one flusher, up to the device write of the page
  lemma UpToWindow(guarded: bool, s: State, p: PageId, v: int) returns (acts: seq<Action>, s': State)
    requires Clean(s) && p in s.cache
    ensures Leads(guarded, s, acts, s') && p.inode < |s.inodes| && NoUnmark(acts)
    ensures s' == s.(inodes := s.inodes[p.inode := Inode([], 0, Free, AtClear(p, None))],
                     dirtyCount := 1, dirty := {p}, cache := s.cache[p := v], disk := s.disk[p := v])
  {
    hide Leads;
    var i := p.inode;
    acts, s' := WriteOnce(guarded, s, p, v);
    acts, s' := Then(guarded, s, acts, s', FlushBegin(i));
    acts, s' := Then(guarded, s, acts, s', FlushTake(i));
    acts, s' := Then(guarded, s, acts, s', FlushWrite(i));
  }

  /**
   * Without the guard an update is lost: for any two values there is a run in
   * which fsync returns, the later value is in the cache of a clean page, and the
   * device holds the earlier one.
   */
  lemma StoreInWindowIsLost(s: State, p: PageId, v: int, w: int) returns (acts: seq<Action>, s': State)
    requires Clean(s) && p in s.cache
    ensures Leads(false, s, acts, s') && p.inode < |s'.inodes| && FsyncReturns(s', p.inode) && NoUnmark(acts)
    ensures p !in s'.dirty && s'.dirtyCount == 0
    ensures p in s'.cache && s'.cache[p] == w && p in s'.disk && s'.disk[p] == v
  {
    hide Leads;
    var i := p.inode;
    acts, s' := UpToWindow(false, s, p, v);
    acts, s' := Then(false, s, acts, s', Write(p, w));
    acts, s' := Then(false, s, acts, s', FlushClear(i));
    acts, s' := Then(false, s, acts, s', FlushCount(i));
    acts, s' := Then(false, s, acts, s', FlushRelock(i));
    acts, s' := Then(false, s, acts, s', FlushEnd(i));
  }

  /** Unmarking a page in flight is counted twice: there is a run that takes the counter below zero. */
  lemma UnmarkInFlightUnderflows(s: State, p: PageId) returns (acts: seq<Action>, s': State)
    requires Clean(s) && p in s.cache
    ensures Leads(false, s, acts, s') && s'.dirtyCount == -1
  {
    hide Leads;
    var i := p.inode;
    acts, s' := UpToWindow(false, s, p, s.cache[p]);
    acts, s' := Then(false, s, acts, s', Unmark(p));
    acts, s' := Then(false, s, acts, s', Count(i));
    acts, s' := Then(false, s, acts, s', FlushClear(i));
    acts, s' := Then(false, s, acts, s', FlushCount(i));
  }

  // a clean system with one page
  lemma OnePage(p: PageId) returns (s: State)
    requires p.inode == 0
    ensures Clean(s) && s.cache == s.disk == map[p := 0]
  {
    s := State(0, [Inode([], 0, Free, NoFlush)], {}, map[p := 0], map[p := 0], {});
  }

  // over every clean start and every run: when fsync returns, its pages are on the device
  ghost predicate Durable(guarded: bool)
  {
    forall s, acts, s', p: PageId ::
      Clean(s) && Leads(guarded, s, acts, s') && p in s.cache && Unmark(p) !in acts
      && p.inode < |s'.inodes| && FsyncReturns(s', p.inode) ==>
        p in s'.disk && s'.disk[p] == LastWrite(acts, p, s.cache[p])
  }

  ghost predicate NeverNegative(guarded: bool)
  {
    forall s, acts, s' :: Clean(s) && Leads(guarded, s, acts, s') ==> s'.dirtyCount >= 0
  }

  /** Over whole runs, fsync is durable and the counter stays right exactly under the guard. */
  lemma GuardIsExact(guarded: bool)
    ensures Durable(guarded) <==> guarded
    ensures NeverNegative(guarded) <==> guarded
  {
    hide Clean, Leads, LastWrite;
    if guarded {
      forall s, acts, s', p: PageId |
        Clean(s) && Leads(true, s, acts, s') && p in s.cache && Unmark(p) !in acts
        && p.inode < |s'.inodes| && FsyncReturns(s', p.inode)
        ensures p in s'.disk && s'.disk[p] == LastWrite(acts, p, s.cache[p])
      {
        FsyncIsDurable(s, acts, s', p);
      }
      forall s, acts, s' | Clean(s) && Leads(true, s, acts, s')
        ensures s'.dirtyCount >= 0
      {
        NoUnderflow(s, acts, s');
      }
    } else {
      var p := PageId(0, 0);
      var s := OnePage(p);
      var acts, s' := StoreInWindowIsLost(s, p, 0, 1);
      CacheHoldsLastWrite(false, s, acts, s', p);
      assert Unmark(p) !in acts && s'.disk[p] != LastWrite(acts, p, s.cache[p]);
      acts, s' := UnmarkInFlightUnderflows(s, p);
    }
  }

  // ----- What fsync waits for

  /**
   * A page written while the flusher has its last page in flight is not visited:
   * the flush ends with that page still dirty.
   */
  lemma FlushMissesLateWrite(s: State, p: PageId, q: PageId, v: int, w: int) returns (acts: seq<Action>, s': State)
    requires Clean(s) && p in s.cache && q in s.cache && q.inode == p.inode && q != p
    ensures Leads(true, s, acts, s') && p.inode < |s'.inodes|
    ensures s'.inodes[p.inode] == Inode([q], 1, Free, NoFlush) && !FsyncReturns(s', p.inode)
  {
    hide Leads;
    var i := p.inode;
    acts, s' := UpToWindow(true, s, p, v);
    acts, s' := Then(true, s, acts, s', Write(q, w));
    acts, s' := Then(true, s, acts, s', Count(i));
    acts, s' := Then(true, s, acts, s', Unlock(i));
    acts, s' := Then(true, s, acts, s', FlushClear(i));
    acts, s' := Then(true, s, acts, s', FlushCount(i));
    acts, s' := Then(true, s, acts, s', FlushRelock(i));
    acts, s' := Then(true, s, acts, s', FlushEnd(i));
  }

  // another flush of the inode, or dirty data of it thrown away
  predicate Helps(a: Action, i: nat)
  {
    a == FlushBegin(i) || (a.Unmark? && a.page.inode == i)
  }

  /**
   * The wait loop of fsync does not flush again. From a state without a flusher
   * in which a page is dirty, it never returns unless some other thread flushes
   * the inode or unmarks one of its pages.
   */
  lemma {:induction false} FsyncWaitsForOthers(guarded: bool, s: State, acts: seq<Action>, s': State, i: nat)
    requires Leads(guarded, s, acts, s') && i < |s.inodes|
    requires s.inodes[i].flusher.NoFlush? && s.inodes[i].nrDirty > 0
    requires forall a :: a in acts ==> !Helps(a, i)
    ensures i < |s'.inodes| && !FsyncReturns(s', i)
    decreases |acts|
  {
    hide Delete;
    if acts != [] {
      assert acts[0] in acts && acts == [acts[0]] + acts[1..];
      FsyncWaitsForOthers(guarded, Next(s, acts[0]), acts[1..], s', i);
    }
  }
}
