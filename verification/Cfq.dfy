// The cfq scheduler of demos/iosched/iosched.c: one sector-sorted queue per
// process, an active queue, and a slice after which the scan starts over.
module Cfq {
  import opened Options
  import opened Requests

  datatype Queue = Queue(pid: nat, reqs: seq<Request>, dispatched: nat)

  // `active` is an index into `queues`; queues are never deleted
  datatype State = State(queues: seq<Queue>, active: Option<nat>)

  const SLICE := 100
  const UINT := 0x1_0000_0000

  // ----- The operations on values

  function FindPid(qs: seq<Queue>, pid: nat): (i: nat)
    ensures i <= |qs| && (i < |qs| ==> qs[i].pid == pid)
    ensures forall j :: 0 <= j < i ==> qs[j].pid != pid
  {
    if qs == [] || qs[0].pid == pid then 0 else 1 + FindPid(qs[1..], pid)
  }

  function FirstBusy(qs: seq<Queue>): (i: nat)
    ensures i <= |qs| && (i < |qs| ==> qs[i].reqs != [])
    ensures forall j :: 0 <= j < i ==> qs[j].reqs == []
  {
    if qs == [] || qs[0].reqs != [] then 0 else 1 + FirstBusy(qs[1..])
  }

  function Add(s: State, pid: nat, r: Request): State
  {
    var i := FindPid(s.queues, pid);
    if i < |s.queues| then
      s.(queues := s.queues[i := s.queues[i].(reqs := Insert(s.queues[i].reqs, r))])
    else
      s.(queues := s.queues + [Queue(pid, [r], 0)])
  }

  predicate SliceUsed(s: State)
  {
    s.active.None? || s.active.value >= |s.queues| || s.queues[s.active.value].dispatched >= SLICE
  }

  // the queue switch at the start of a dispatch
  function Switch(s: State): State
  {
    var j := FirstBusy(s.queues);
    if SliceUsed(s) && j < |s.queues|
    then State(s.queues[j := s.queues[j].(dispatched := 0)], Some(j)) else s
  }

  predicate Ready(s: State)
  {
    s.active.Some? && s.active.value < |s.queues| && s.queues[s.active.value].reqs != []
  }

  // taking the first request of the active queue
  function Pop(s: State): State
    requires Ready(s)
  {
    var q := s.queues[s.active.value];
    s.(queues := s.queues[s.active.value := q.(reqs := q.reqs[1..], dispatched := (q.dispatched + q.reqs[0].bytes) % UINT)])
  }

  function Chosen(s: State): Option<Request>
  {
    var s1 := Switch(s);
    if Ready(s1) then Some(s1.queues[s1.active.value].reqs[0]) else None
  }

  function Dispatch(s: State): State
  {
    var s1 := Switch(s);
    if Ready(s1) then Pop(s1) else s1
  }

  // ----- The class

  class CfqScheduler {
    var queues: seq<Queue>
    var active: Option<nat>

    ghost function View(): State
      reads this
    {
      State(queues, active)
    }

    constructor ()
      ensures View() == State([], None)
    {
      queues, active := [], None;
    }

    // cfq_get_queue: find the process's queue or append a new one
    method GetQueue(pid: nat) returns (i: nat)
      modifies this
      ensures i == FindPid(old(queues), pid) && i < |queues| && active == old(active)
      ensures queues == if i < |old(queues)| then old(queues) else old(queues) + [Queue(pid, [], 0)]
    {
      i := 0;
      while i < |queues|
        invariant 0 <= i <= |queues| && queues == old(queues) && active == old(active)
        invariant forall j :: 0 <= j < i ==> queues[j].pid != pid
      {
        if queues[i].pid == pid {
          return;
        }
        i := i + 1;
      }
      queues := queues + [Queue(pid, [], 0)];
    }

    method AddRequest(pid: nat, r: Request)
      modifies this
      ensures View() == Add(old(View()), pid, r)
    {
      var i := GetQueue(pid);
      var reqs := InsertBySector(queues[i].reqs, r);
      queues := queues[i := queues[i].(reqs := reqs)];
      assert View() == Add(old(View()), pid, r);
    }

    method DispatchRequest() returns (req: Option<Request>)
      modifies this
      ensures req == Chosen(old(View())) && View() == Dispatch(old(View()))
    {
      if active.None? || active.value >= |queues| || queues[active.value].dispatched >= SLICE {
        var j := 0;
        while j < |queues| && queues[j].reqs == []
          invariant 0 <= j <= |queues| && View() == old(View())
          invariant forall i :: 0 <= i < j ==> queues[i].reqs == []
        {
          j := j + 1;
        }
        if j < |queues| {
          active := Some(j);
          queues := queues[j := queues[j].(dispatched := 0)];
        }
      }
      assert View() == Switch(old(View()));
      if active.None? || active.value >= |queues| || queues[active.value].reqs == [] {
        return None;
      }
      var q := queues[active.value];
      req := Some(q.reqs[0]);
      queues := queues[active.value := q.(reqs := q.reqs[1..], dispatched := (q.dispatched + q.reqs[0].bytes) % UINT)];
    }
  }

  // ----- Invariant

  ghost predicate Inv(s: State)
  {
    && (forall i, j :: 0 <= i < j < |s.queues| ==> s.queues[i].pid != s.queues[j].pid)
    && (forall i :: 0 <= i < |s.queues| ==> Sorted(s.queues[i].reqs))
    && (s.active.Some? ==> s.active.value < |s.queues|)
  }

  lemma AddInv(s: State, pid: nat, r: Request)
    requires Inv(s)
    ensures Inv(Add(s, pid, r))
  {
    var i := FindPid(s.queues, pid);
    if i < |s.queues| {
      InsertSorted(s.queues[i].reqs, r);
    }
  }

  lemma DispatchInv(s: State)
    requires Inv(s)
    ensures Inv(Dispatch(s))
  {
  }

  /** What a process has queued. */
  function PendingOf(s: State, pid: nat): seq<Request>
  {
    var i := FindPid(s.queues, pid);
    if i < |s.queues| then s.queues[i].reqs else []
  }

  lemma PendingAt(s: State, i: nat)
    requires Inv(s) && i < |s.queues|
    ensures PendingOf(s, s.queues[i].pid) == s.queues[i].reqs
  {
  }

  lemma AddPending(s: State, pid: nat, r: Request, who: nat)
    requires Inv(s)
    ensures PendingOf(Add(s, pid, r), who) == if who == pid then Insert(PendingOf(s, pid), r) else PendingOf(s, who)
  {
    AddInv(s, pid, r);
    var s' := Add(s, pid, r);
    var i := FindPid(s.queues, who);
    if who == pid {
      PendingAt(s', i);
    } else if i < |s.queues| {
      PendingAt(s', i);
    }
  }

  lemma DispatchPending(s: State, who: nat)
    requires Inv(s)
    ensures var s1 := Switch(s);
      PendingOf(Dispatch(s), who) ==
      if Ready(s1) && s1.queues[s1.active.value].pid == who then PendingOf(s, who)[1..] else PendingOf(s, who)
    ensures Ready(Switch(s)) && Switch(s).queues[Switch(s).active.value].pid == who ==>
      PendingOf(s, who) != [] && Chosen(s) == Some(PendingOf(s, who)[0])
  {
    hide FindPid, FirstBusy;
    DispatchInv(s);
    var s1 := Switch(s);
    var i := FindPid(s.queues, who);
    if i < |s.queues| {
      PendingAt(s, i);
      PendingAt(s1, i);
      PendingAt(Dispatch(s), i);
    }
  }

  // ----- When a dispatch returns nothing

  ghost predicate AllIdle(s: State)
  {
    forall i :: 0 <= i < |s.queues| ==> s.queues[i].reqs == []
  }

  // the active queue has run dry before using up its slice
  predicate ActiveDry(s: State)
  {
    s.active.Some? && s.active.value < |s.queues| &&
    s.queues[s.active.value].dispatched < SLICE && s.queues[s.active.value].reqs == []
  }

  /** A dispatch comes back empty exactly when nothing is queued or the active queue has run dry early. */
  lemma NothingChosenIff(s: State)
    requires Inv(s)
    ensures Chosen(s).None? <==> AllIdle(s) || ActiveDry(s)
  {
  }

  datatype Event = Arrive(pid: nat, r: Request) | Serve

  function Step(s: State, e: Event): State
  {
    match e
    case Arrive(pid, r) => Add(s, pid, r)
    case Serve => Dispatch(s)
  }

  function Run(s: State, es: seq<Event>): State
    decreases |es|
  {
    if es == [] then s else Run(Step(s, es[0]), es[1..])
  }

  // the requests handed out along a run
  function Served(s: State, es: seq<Event>): seq<Request>
    decreases |es|
  {
    if es == [] then []
    else (if es[0].Serve? && Chosen(s).Some? then [Chosen(s).value] else []) + Served(Step(s, es[0]), es[1..])
  }

  const IDLE := State([], None)

  lemma {:induction false} RunInv(s: State, es: seq<Event>)
    requires Inv(s)
    ensures Inv(Run(s, es))
    decreases |es|
  {
    if es != [] {
      if es[0].Arrive? { AddInv(s, es[0].pid, es[0].r); } else { DispatchInv(s); }
      RunInv(Step(s, es[0]), es[1..]);
    }
  }

  /**
   * Once the active queue has run dry early, every dispatch returns nothing and
   * all other processes wait, until the active process itself queues again.
   */
  lemma {:induction false} DryStarvesOthers(s: State, es: seq<Event>)
    requires Inv(s) && ActiveDry(s)
    requires forall i :: 0 <= i < |es| && es[i].Arrive? ==> es[i].pid != s.queues[s.active.value].pid
    ensures Served(s, es) == [] && ActiveDry(Run(s, es))
    decreases |es|
  {
    if es != [] {
      var s1 := Step(s, es[0]);
      if es[0].Arrive? { AddInv(s, es[0].pid, es[0].r); } else { NothingChosenIff(s); }
      assert s1.active == s.active && s1.queues[s.active.value] == s.queues[s.active.value];
      DryStarvesOthers(s1, es[1..]);
    }
  }

  // one process adds a request short of a slice, another adds one, and the first is served
  lemma ShortSlice(small: Request, other: Request)
    requires small.bytes == SLICE - 1
    ensures var s2 := State([Queue(1, [small], 0), Queue(2, [other], 0)], None);
      && Step(Step(IDLE, Arrive(1, small)), Arrive(2, other)) == s2
      && Step(s2, Serve) == State([Queue(1, [], SLICE - 1), Queue(2, [other], 0)], Some(0))
  {
    assert Step(IDLE, Arrive(1, small)) == State([Queue(1, [small], 0)], None);
    var s2 := State([Queue(1, [small], 0), Queue(2, [other], 0)], None);
    assert Switch(s2) == State(s2.queues, Some(0));
    assert [small][1..] == [];
  }

  lemma ThreeEvents(s: State, a: Event, b: Event, c: Event)
    ensures Run(s, [a, b, c]) == Step(Step(Step(s, a), b), c)
  {
    hide Step;
    assert [a, b, c][1..] == [b, c] && [b, c][1..] == [c] && [c][1..] == [];
    assert Run(Step(Step(s, a), b), [c]) == Step(Step(Step(s, a), b), c);
    assert Run(Step(s, a), [b, c]) == Run(Step(Step(s, a), b), [c]);
  }

  /** Then every dispatch comes back empty although the other request waits. */
  lemma StarvationExample(small: Request, other: Request)
    requires small.bytes == SLICE - 1
    ensures var s := Run(IDLE, [Arrive(1, small), Arrive(2, other), Serve]);
      ActiveDry(s) && PendingOf(s, 2) == [other] && Chosen(s).None?
  {
    hide Step, Run;
    ThreeEvents(IDLE, Arrive(1, small), Arrive(2, other), Serve);
    ShortSlice(small, other);
    var s := State([Queue(1, [], SLICE - 1), Queue(2, [other], 0)], Some(0));
    PendingAt(s, 1);
    NothingChosenIff(s);
  }

  // the requests that arrive have at least `m` bytes, a 32-bit number
  ghost predicate BytesAtLeast(es: seq<Event>, m: nat)
  {
    forall i :: 0 <= i < |es| && es[i].Arrive? ==> m <= es[i].r.bytes < UINT
  }

  ghost predicate FreshSlices(s: State)
  {
    && (s.active.Some? ==> s.active.value < |s.queues| && s.queues[s.active.value].dispatched >= SLICE)
    && forall i, k :: 0 <= i < |s.queues| && 0 <= k < |s.queues[i].reqs| ==> SLICE <= s.queues[i].reqs[k].bytes < UINT
  }

  lemma AddFresh(s: State, pid: nat, r: Request)
    requires Inv(s) && FreshSlices(s) && SLICE <= r.bytes < UINT
    ensures FreshSlices(Add(s, pid, r))
  {
    var i := FindPid(s.queues, pid);
    if i < |s.queues| {
      var q := s.queues[i].reqs;
      InsertKeeps(q, r);
      forall k | 0 <= k < |Insert(q, r)|
        ensures SLICE <= Insert(q, r)[k].bytes < UINT
      {
        assert Insert(q, r)[k] in multiset(Insert(q, r));
        assert Insert(q, r)[k] in q || Insert(q, r)[k] == r;
      }
    }
  }

  /** If every request is at least a slice, a dispatch returns nothing only when nothing is queued. */
  lemma {:induction false} LargeRequestsNeverStall(s: State, es: seq<Event>)
    requires Inv(s) && FreshSlices(s) && BytesAtLeast(es, SLICE)
    ensures Inv(Run(s, es)) && FreshSlices(Run(s, es))
    ensures Chosen(Run(s, es)).None? <==> AllIdle(Run(s, es))
    decreases |es|
  {
    if es == [] {
      NothingChosenIff(s);
    } else {
      if es[0].Arrive? {
        AddInv(s, es[0].pid, es[0].r);
        AddFresh(s, es[0].pid, es[0].r);
      } else {
        DispatchInv(s);
      }
      LargeRequestsNeverStall(Step(s, es[0]), es[1..]);
    }
  }

  lemma IdleIsFresh()
    ensures Inv(IDLE) && FreshSlices(IDLE)
  {
  }

  lemma PendingIsNotIdle(s: State, pid: nat)
    requires PendingOf(s, pid) != []
    ensures !AllIdle(s)
  {
  }

  // whatever requests of at least `m` bytes arrive, a dispatch returns nothing only when nothing is queued
  ghost predicate NeverStalls(m: nat)
  {
    forall es :: BytesAtLeast(es, m) ==> (Chosen(Run(IDLE, es)).None? <==> AllIdle(Run(IDLE, es)))
  }

  /** The bound of one slice is exact. */
  lemma NeverStallsIff(m: nat)
    ensures NeverStalls(m) <==> m >= SLICE
  {
    hide Run, Chosen, Inv, AllIdle;
    if m >= SLICE {
      forall es | BytesAtLeast(es, m)
        ensures Chosen(Run(IDLE, es)).None? <==> AllIdle(Run(IDLE, es))
      {
        IdleIsFresh();
        LargeRequestsNeverStall(IDLE, es);
      }
    } else {
      var small, other := Request(1, 10, true, SLICE - 1, 0), Request(2, 20, true, 4096, 0);
      var es := [Arrive(1, small), Arrive(2, other), Serve];
      StarvationExample(small, other);
      assert BytesAtLeast(es, m);
      PendingIsNotIdle(Run(IDLE, es), 2);
    }
  }

  // ----- Slices

  // whose slice it is, and the requests served in it so far
  datatype Slice = Slice(owner: Option<nat>, served: seq<Request>)

  function Bytes(rs: seq<Request>): nat
  {
    if rs == [] then 0 else Bytes(rs[..|rs| - 1]) + rs[|rs| - 1].bytes
  }

  // a slice lasts while it has an owner and the bytes served in it, in 32 bits, are below 100
  predicate Lasts(sl: Slice)
  {
    sl.owner.Some? && Bytes(sl.served) % UINT < 100
  }

  // what the queues must yield: in a lasting slice the next request of its owner,
  // otherwise the first request of the first busy queue, which starts a slice
  function NextOfSlice(sl: Slice, s: State): Option<Request>
  {
    if Lasts(sl) || FirstBusy(s.queues) >= |s.queues| then
      if sl.owner.None? || PendingOf(s, sl.owner.value) == [] then None
      else Some(PendingOf(s, sl.owner.value)[0])
    else Some(s.queues[FirstBusy(s.queues)].reqs[0])
  }

  function AfterServing(sl: Slice, s: State): Slice
  {
    match NextOfSlice(sl, s)
    case None => sl
    case Some(r) =>
      if Lasts(sl) || FirstBusy(s.queues) >= |s.queues| then sl.(served := sl.served + [r])
      else Slice(Some(s.queues[FirstBusy(s.queues)].pid), [r])
  }

  // the slice at the end of a run
  function SliceOf(es: seq<Event>): Slice
  {
    if es == [] then Slice(None, [])
    else
      var before := es[..|es| - 1];
      if es[|es| - 1].Arrive? then SliceOf(before) else AfterServing(SliceOf(before), Run(IDLE, before))
  }

  // the scheduler's own account of the slice
  ghost predicate Accounts(s: State, sl: Slice)
  {
    match sl.owner
    case None => s.active.None? && sl.served == []
    case Some(pid) =>
      && s.active.Some? && s.active.value < |s.queues|
      && s.queues[s.active.value].pid == pid
      && s.queues[s.active.value].dispatched == Bytes(sl.served) % UINT
  }

  lemma AddAccounts(s: State, sl: Slice, pid: nat, r: Request)
    requires Inv(s) && Accounts(s, sl)
    ensures Accounts(Add(s, pid, r), sl)
  {
  }

  lemma BytesAppend(rs: seq<Request>, r: Request)
    ensures Bytes(rs + [r]) == Bytes(rs) + r.bytes
  {
    assert (rs + [r])[..|rs|] == rs;
  }

  lemma SumWraps(a: nat, b: nat)
    ensures (a % UINT + b) % UINT == (a + b) % UINT
  {
  }

  lemma DispatchAccounts(s: State, sl: Slice)
    requires Inv(s) && Accounts(s, sl)
    ensures Chosen(s) == NextOfSlice(sl, s)
    ensures Accounts(Dispatch(s), AfterServing(sl, s))
  {
    hide FindPid, FirstBusy;
    if s.active.Some? {
      PendingAt(s, s.active.value);
    }
    var next := NextOfSlice(sl, s);
    if next.Some? {
      BytesAppend(sl.served, next.value);
      SumWraps(Bytes(sl.served), next.value.bytes);
      assert Bytes([next.value]) == next.value.bytes;
    }
  }

  lemma StartAccounts()
    ensures Accounts(IDLE, SliceOf([]))
  {
  }

  lemma StepAccounts(s: State, sl: Slice, e: Event)
    requires Inv(s) && Accounts(s, sl)
    ensures Inv(Step(s, e))
    ensures Accounts(Step(s, e), if e.Arrive? then sl else AfterServing(sl, s))
  {
    hide Accounts, AfterServing, Inv, Add, Dispatch;
    if e.Arrive? {
      AddInv(s, e.pid, e.r);
      AddAccounts(s, sl, e.pid, e.r);
    } else {
      DispatchInv(s);
      DispatchAccounts(s, sl);
    }
  }

  lemma {:induction false} RunAppend(s: State, es: seq<Event>, e: Event)
    ensures Run(s, es + [e]) == Step(Run(s, es), e)
    decreases |es|
  {
    hide Step;
    if es == [] {
      assert [] + [e] == [e] && [e][1..] == [];
    } else {
      assert (es + [e])[1..] == es[1..] + [e];
      RunAppend(Step(s, es[0]), es[1..], e);
    }
  }

  /**
   * Over every run from the start, the count of the active queue is the sum of the
   * bytes served since the slice began, in 32 bits. So requests keep coming from
   * the owner of the slice exactly while that sum is below 100, and then from the
   * first busy queue.
   */
  lemma {:induction false} SlicesAreKept(es: seq<Event>)
    ensures Inv(Run(IDLE, es)) && Accounts(Run(IDLE, es), SliceOf(es))
    ensures Chosen(Run(IDLE, es)) == NextOfSlice(SliceOf(es), Run(IDLE, es))
    decreases |es|
  {
    hide Step, Chosen, NextOfSlice, AfterServing, Accounts, Inv;
    if es == [] {
      assert Accounts(IDLE, SliceOf([])) by { StartAccounts(); }
      IdleIsFresh();
    } else {
      var before, e := es[..|es| - 1], es[|es| - 1];
      assert es == before + [e];
      SlicesAreKept(before);
      RunAppend(IDLE, before, e);
      StepAccounts(Run(IDLE, before), SliceOf(before), e);
    }
    DispatchAccounts(Run(IDLE, es), SliceOf(es));
  }

  // ----- Conservation, per process

  function AddedBy(e: Event, pid: nat): multiset<Request>
  {
    if e.Arrive? && e.pid == pid then multiset{e.r} else multiset{}
  }

  // what an event hands out from the queue of `pid`
  function ServedBy(s: State, e: Event, pid: nat): multiset<Request>
  {
    var s1 := Switch(s);
    if e.Serve? && Ready(s1) && s1.queues[s1.active.value].pid == pid
    then multiset{s1.queues[s1.active.value].reqs[0]} else multiset{}
  }

  function Added(es: seq<Event>, pid: nat): multiset<Request>
  {
    if es == [] then multiset{} else AddedBy(es[0], pid) + Added(es[1..], pid)
  }

  function ServedOf(s: State, es: seq<Event>, pid: nat): multiset<Request>
    decreases |es|
  {
    if es == [] then multiset{} else ServedBy(s, es[0], pid) + ServedOf(Step(s, es[0]), es[1..], pid)
  }

  lemma StepConserves(s: State, e: Event, pid: nat)
    requires Inv(s)
    ensures Inv(Step(s, e))
    ensures multiset(PendingOf(Step(s, e), pid)) + ServedBy(s, e, pid) == multiset(PendingOf(s, pid)) + AddedBy(e, pid)
  {
    hide PendingOf, FindPid, Add, Dispatch;
    match e
    case Arrive(who, r) =>
      AddInv(s, who, r);
      AddPending(s, who, r, pid);
      InsertKeeps(PendingOf(s, pid), r);
    case Serve =>
      DispatchInv(s);
      DispatchPending(s, pid);
      if PendingOf(s, pid) != [] {
        assert PendingOf(s, pid) == [PendingOf(s, pid)[0]] + PendingOf(s, pid)[1..];
      }
  }

  // two conserving steps compose
  lemma Chain(p0: multiset<Request>, a1: multiset<Request>, s1: multiset<Request>, p1: multiset<Request>,
              a2: multiset<Request>, s2: multiset<Request>, p2: multiset<Request>)
    requires p1 + s1 == p0 + a1 && p2 + s2 == p1 + a2
    ensures p2 + (s1 + s2) == p0 + (a1 + a2)
  {
    assert p2 + (s1 + s2) == (p2 + s2) + s1;
    assert (p1 + a2) + s1 == (p1 + s1) + a2;
  }

  /** Each process gets back exactly what it queued: served plus still queued is what it added. */
  lemma {:induction false} Conservation(s: State, es: seq<Event>, pid: nat)
    requires Inv(s)
    ensures multiset(PendingOf(Run(s, es), pid)) + ServedOf(s, es, pid) == multiset(PendingOf(s, pid)) + Added(es, pid)
    decreases |es|
  {
    hide PendingOf, Step, ServedBy, AddedBy;
    if es != [] {
      var s1 := Step(s, es[0]);
      StepConserves(s, es[0], pid);
      Conservation(s1, es[1..], pid);
      Chain(multiset(PendingOf(s, pid)), AddedBy(es[0], pid), ServedBy(s, es[0], pid), multiset(PendingOf(s1, pid)),
            Added(es[1..], pid), ServedOf(s1, es[1..], pid), multiset(PendingOf(Run(s, es), pid)));
    }
  }
}
