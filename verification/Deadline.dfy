// The deadline scheduler of demos/iosched/iosched.c. The same requests sit in a
// sector-sorted list and in two arrival FIFOs; all three are views of one list
// of pending requests in arrival order.
module Deadline {
  import opened Options
  import opened Requests

  // jiffies_to_msecs and the two deadlines, in milliseconds
  datatype Config = Config(toMsecs: nat -> nat, readDeadline: nat, writeDeadline: nat)

  const DEFAULT_READ_DEADLINE := 500
  const DEFAULT_WRITE_DEADLINE := 5000

  // requests of one kind, in arrival order
  function OfKind(p: seq<Request>, read: bool): seq<Request>
  {
    if p == [] then []
    else (if p[0].isRead == read then [p[0]] else []) + OfKind(p[1..], read)
  }

  // the jiffies since a stamp, in 64-bit unsigned arithmetic
  function Since(now: jiffies, stamp: jiffies): nat
  {
    (now - stamp) % 0x1_0000_0000_0000_0000
  }

  function Age(cfg: Config, now: jiffies, r: Request): nat
  {
    // unsigned subtraction
    cfg.toMsecs(if now >= r.stamp then now - r.stamp else now - r.stamp + 0x1_0000_0000_0000_0000)
  }

  predicate Expired(cfg: Config, now: jiffies, r: Request)
  {
    Age(cfg, now, r) >= if r.isRead then cfg.readDeadline else cfg.writeDeadline
  }

  predicate HeadExpired(cfg: Config, now: jiffies, p: seq<Request>, read: bool)
  {
    var fifo := OfKind(p, read);
    fifo != [] && Expired(cfg, now, fifo[0])
  }

  // a dispatch reads the clock for each of its two expiry tests
  datatype Clock = Clock(readTest: jiffies, writeTest: jiffies)

  function TestTime(clock: Clock, read: bool): jiffies
  {
    if read then clock.readTest else clock.writeTest
  }

  /** What a dispatch returns: an expired read, else an expired write, else the lowest sector. */
  function Pick(cfg: Config, clock: Clock, p: seq<Request>): Option<Request>
  {
    if HeadExpired(cfg, clock.readTest, p, true) then Some(OfKind(p, true)[0])
    else if HeadExpired(cfg, clock.writeTest, p, false) then Some(OfKind(p, false)[0])
    else if p != [] then (SortIsStableSort(p); Some(Sort(p)[0]))
    else None
  }

  // ----- Filtering by kind

  lemma OfKindCons(p: seq<Request>, read: bool)
    requires p != []
    ensures OfKind(p, read) == (if p[0].isRead == read then [p[0]] else []) + OfKind(p[1..], read)
  {
  }

  lemma {:induction false} OfKindConcat(a: seq<Request>, b: seq<Request>, read: bool)
    ensures OfKind(a + b, read) == OfKind(a, read) + OfKind(b, read)
  {
    if a == [] {
      assert a + b == b;
    } else {
      hide OfKind;
      OfKindConcat(a[1..], b, read);
      OfKindCons(a, read);
      OfKindCons(a + b, read);
      assert (a + b)[0] == a[0] && (a + b)[1..] == a[1..] + b;
      Assoc(if a[0].isRead == read then [a[0]] else [], OfKind(a[1..], read), OfKind(b, read));
    }
  }

  lemma OfKindAppend(p: seq<Request>, r: Request, read: bool)
    ensures OfKind(p + [r], read) == OfKind(p, read) + if r.isRead == read then [r] else []
  {
    OfKindConcat(p, [r], read);
    assert OfKind([r], read) == if r.isRead == read then [r] else [];
  }

  lemma {:induction false} OfKindMembers(p: seq<Request>, read: bool, x: Request)
    ensures x in OfKind(p, read) <==> x in p && x.isRead == read
  {
    if p != [] {
      assert p == [p[0]] + p[1..];
      OfKindMembers(p[1..], read, x);
    }
  }

  lemma {:induction false} OfKindRemove(p: seq<Request>, r: Request, read: bool)
    ensures OfKind(Remove(p, r), read) == if r.isRead == read then Remove(OfKind(p, read), r) else OfKind(p, read)
  {
    if p != [] {
      var head := if p[0].isRead == read then [p[0]] else [];
      var tail := OfKind(p[1..], read);
      assert OfKind(p, read) == head + tail;
      RemoveConcat(head, tail, r);
      if p[0] == r {
        assert r.isRead == read ==> Remove(head, r) == [];
      } else {
        OfKindRemove(p[1..], r, read);
        assert ([p[0]] + Remove(p[1..], r))[1..] == Remove(p[1..], r);
      }
    }
  }

  lemma {:induction false} OfKindSplit(p: seq<Request>)
    ensures multiset(p) == multiset(OfKind(p, true)) + multiset(OfKind(p, false))
  {
    if p != [] {
      assert p == [p[0]] + p[1..];
      OfKindSplit(p[1..]);
    }
  }

  lemma AgeIsSince(cfg: Config, now: jiffies, r: Request)
    ensures Age(cfg, now, r) == cfg.toMsecs(Since(now, r.stamp))
  {
    if now >= r.stamp {
      assert Since(now, r.stamp) == now - r.stamp;
    } else {
      assert Since(now, r.stamp) == now - r.stamp + 0x1_0000_0000_0000_0000;
    }
  }

  /** Reads expire after the read deadline and writes after the write deadline. */
  lemma HeadExpiredMeans(cfg: Config, now: jiffies, p: seq<Request>)
    ensures var readFifo := OfKind(p, true);
      HeadExpired(cfg, now, p, true) <==> readFifo != [] && cfg.toMsecs(Since(now, readFifo[0].stamp)) >= cfg.readDeadline
    ensures var writeFifo := OfKind(p, false);
      HeadExpired(cfg, now, p, false) <==> writeFifo != [] && cfg.toMsecs(Since(now, writeFifo[0].stamp)) >= cfg.writeDeadline
  {
    hide OfKind, Age, Since;
    var readFifo, writeFifo := OfKind(p, true), OfKind(p, false);
    if readFifo != [] {
      OfKindMembers(p, true, readFifo[0]);
      AgeIsSince(cfg, now, readFifo[0]);
    }
    if writeFifo != [] {
      OfKindMembers(p, false, writeFifo[0]);
      AgeIsSince(cfg, now, writeFifo[0]);
    }
  }

  lemma PickIsPending(cfg: Config, clock: Clock, p: seq<Request>)
    ensures Pick(cfg, clock, p).None? <==> p == []
    ensures Pick(cfg, clock, p).Some? ==> Pick(cfg, clock, p).value in p
  {
    if Pick(cfg, clock, p).Some? {
      var r := Pick(cfg, clock, p).value;
      OfKindMembers(p, true, r);
      OfKindMembers(p, false, r);
      SortIsStableSort(p);
      if !HeadExpired(cfg, clock.readTest, p, true) && !HeadExpired(cfg, clock.writeTest, p, false) {
        assert r in multiset(Sort(p));
      }
    }
  }

  // ----- The scheduler

  class DeadlineScheduler {
    var dispatch: seq<Request>     // by sector
    var readFifo: seq<Request>
    var writeFifo: seq<Request>
    const cfg: Config
    ghost var pending: seq<Request>  // in arrival order

    ghost predicate Valid()
      reads this
    {
      && Distinct(pending)
      && dispatch == Sort(pending)
      && readFifo == OfKind(pending, true)
      && writeFifo == OfKind(pending, false)
    }

    constructor (toMsecs: nat -> nat)
      ensures Valid() && pending == []
      ensures cfg == Config(toMsecs, 500, 5000)
    {
      dispatch, readFifo, writeFifo, pending := [], [], [], [];
      cfg := Config(toMsecs, DEFAULT_READ_DEADLINE, DEFAULT_WRITE_DEADLINE);
    }

    method Add(r: Request)
      requires Valid() && r !in pending
      modifies this
      ensures Valid() && pending == old(pending) + [r]
    {
      OfKindAppend(pending, r, true);
      OfKindAppend(pending, r, false);
      if r.isRead {
        readFifo := readFifo + [r];
      } else {
        writeFifo := writeFifo + [r];
      }
      dispatch := InsertBySector(dispatch, r);
      assert (pending + [r])[..|pending|] == pending;
      pending := pending + [r];
    }

    // deadline_read_expired
    method ReadExpired(now: jiffies) returns (b: bool)
      requires Valid()
      ensures b <==> readFifo != [] && cfg.toMsecs(Since(now, readFifo[0].stamp)) >= cfg.readDeadline
    {
      if readFifo == [] {
        return false;
      }
      AgeIsSince(cfg, now, readFifo[0]);
      b := Age(cfg, now, readFifo[0]) >= cfg.readDeadline;
    }

    // deadline_write_expired
    method WriteExpired(now: jiffies) returns (b: bool)
      requires Valid()
      ensures b <==> writeFifo != [] && cfg.toMsecs(Since(now, writeFifo[0].stamp)) >= cfg.writeDeadline
    {
      if writeFifo == [] {
        return false;
      }
      AgeIsSince(cfg, now, writeFifo[0]);
      b := Age(cfg, now, writeFifo[0]) >= cfg.writeDeadline;
    }

    // list_del of both nodes of a request: from the sorted list and from its FIFO
    method Unlink(r: Request)
      requires Valid()
      modifies this
      ensures Valid() && pending == Remove(old(pending), r)
    {
      RemoveDistinct(pending, r);
      SortRemove(pending, r);
      OfKindRemove(pending, r, true);
      OfKindRemove(pending, r, false);
      dispatch := Remove(dispatch, r);
      if r.isRead {
        readFifo := Remove(readFifo, r);
      } else {
        writeFifo := Remove(writeFifo, r);
      }
      pending := Remove(pending, r);
    }

    /** One dispatch returns the picked request and removes it from every index. */
    method Dispatch(clock: Clock) returns (req: Option<Request>)
      requires Valid()
      modifies this
      ensures Valid() && req == Pick(cfg, clock, old(pending))
      ensures pending == if req.Some? then Remove(old(pending), req.value) else old(pending)
    {
      hide Remove, HeadExpired, Distinct;
      HeadExpiredMeans(cfg, clock.readTest, pending);
      HeadExpiredMeans(cfg, clock.writeTest, pending);
      var readLate := ReadExpired(clock.readTest);
      if readLate {
        req := Some(readFifo[0]);
        Unlink(readFifo[0]);
        return;
      }
      var writeLate := WriteExpired(clock.writeTest);
      if writeLate {
        req := Some(writeFifo[0]);
        Unlink(writeFifo[0]);
        return;
      }
      SortIsStableSort(pending);
      if dispatch != [] {
        req := Some(dispatch[0]);
        Unlink(dispatch[0]);
        return;
      }
      return None;
    }
  }

  /**
   * Index agreement: in every valid state the sorted list is the stable sector
   * sort of what is pending, and holds exactly the requests of the two FIFOs.
   */
  lemma IndexesAgree(p: seq<Request>)
    ensures Sorted(Sort(p))
    ensures multiset(Sort(p)) == multiset(OfKind(p, true)) + multiset(OfKind(p, false)) == multiset(p)
    ensures forall k :: OfSector(Sort(p), k) == OfSector(p, k)
  {
    SortIsStableSort(p);
    OfKindSplit(p);
  }

  // ----- Runs

  datatype Event = Arrive(r: Request) | Serve(clock: Clock)

  datatype State = State(pending: seq<Request>, served: seq<Request>)

  function Step(cfg: Config, s: State, e: Event): State
  {
    match e
    case Arrive(r) => s.(pending := s.pending + [r])
    case Serve(clock) =>
      match Pick(cfg, clock, s.pending)
      case None => s
      case Some(r) => State(Remove(s.pending, r), s.served + [r])
  }

  function Run(cfg: Config, s: State, es: seq<Event>): State
    decreases |es|
  {
    if es == [] then s else Run(cfg, Step(cfg, s, es[0]), es[1..])
  }

  function Arrivals(es: seq<Event>): multiset<Request>
  {
    if es == [] then multiset{}
    else (if es[0].Arrive? then multiset{es[0].r} else multiset{}) + Arrivals(es[1..])
  }

  /** Nothing is lost or duplicated: what arrived is what was served plus what is pending. */
  lemma {:induction false} Conservation(cfg: Config, s: State, es: seq<Event>)
    ensures var s' := Run(cfg, s, es);
      multiset(s'.served) + multiset(s'.pending) == multiset(s.served) + multiset(s.pending) + Arrivals(es)
    decreases |es|
  {
    if es != [] {
      var e := es[0];
      if e.Serve? {
        PickIsPending(cfg, e.clock, s.pending);
        if s.pending != [] {
          RemoveKeeps(s.pending, Pick(cfg, e.clock, s.pending).value);
        }
      }
      Conservation(cfg, Step(cfg, s, e), es[1..]);
    }
  }

  // a dispatch at a time when every wait in `p` is below its deadline
  ghost predicate Quiet(cfg: Config, p: seq<Request>, e: Event)
  {
    && e.Serve?
    && (forall r :: r in p && r.isRead ==> cfg.toMsecs(Since(e.clock.readTest, r.stamp)) < cfg.readDeadline)
    && (forall r :: r in p && !r.isRead ==> cfg.toMsecs(Since(e.clock.writeTest, r.stamp)) < cfg.writeDeadline)
  }

  lemma QuietPick(cfg: Config, p: seq<Request>, e: Event)
    requires Quiet(cfg, p, e) && p != []
    ensures e.Serve? && |Sort(p)| == |p| && Pick(cfg, e.clock, p) == Some(Sort(p)[0]) && Sort(p)[0] in p
    ensures Quiet(cfg, Remove(p, Sort(p)[0]), e)
  {
    hide OfKind, HeadExpired, Since, Sort, Remove;
    SortIsStableSort(p);
    HeadExpiredMeans(cfg, e.clock.readTest, p);
    HeadExpiredMeans(cfg, e.clock.writeTest, p);
    if OfKind(p, true) != [] { OfKindMembers(p, true, OfKind(p, true)[0]); }
    if OfKind(p, false) != [] { OfKindMembers(p, false, OfKind(p, false)[0]); }
    assert Sort(p)[0] in multiset(Sort(p));
    RemoveSubset(p, Sort(p)[0]);
  }

  lemma SortAfterPick(p: seq<Request>)
    requires p != []
    ensures |Sort(p)| == |p| && Sort(Remove(p, Sort(p)[0])) == Sort(p)[1..]
    ensures |Remove(p, Sort(p)[0])| == |p| - 1
  {
    SortIsStableSort(p);
    assert Sort(p)[0] in multiset(Sort(p));
    RemoveKeeps(p, Sort(p)[0]);
    SortRemove(p, Sort(p)[0]);
  }

  /** With nothing expired and no arrivals, draining serves the stable sector sort. */
  lemma {:induction false} DrainInSectorOrder(cfg: Config, s: State, es: seq<Event>)
    requires |es| == |s.pending| && forall i :: 0 <= i < |es| ==> Quiet(cfg, s.pending, es[i])
    ensures Run(cfg, s, es) == State([], s.served + Sort(s.pending))
    decreases |es|
  {
    hide Sort, Remove, Pick, Quiet;
    var p := s.pending;
    if es == [] {
      assert Sort(p) == [] by { SortIsStableSort(p); }
    } else {
      QuietPick(cfg, p, es[0]);
      SortAfterPick(p);
      var r := Sort(p)[0];
      var s1 := State(Remove(p, r), s.served + [r]);
      assert Step(cfg, s, es[0]) == s1 by { QuietStep(cfg, s, es[0], r); }
      forall i | 0 <= i < |es[1..]|
        ensures Quiet(cfg, s1.pending, es[1..][i])
      {
        QuietPick(cfg, p, es[i + 1]);
      }
      DrainInSectorOrder(cfg, s1, es[1..]);
      assert Sort(p) == [r] + Sort(p)[1..];
      assert s.served + ([r] + Sort(p)[1..]) == s.served + [r] + Sort(p)[1..];
    }
  }

  lemma QuietStep(cfg: Config, s: State, e: Event, r: Request)
    requires e.Serve? && Pick(cfg, e.clock, s.pending) == Some(r)
    ensures Step(cfg, s, e) == State(Remove(s.pending, r), s.served + [r])
  {
  }

  // ----- Latency

  ghost predicate Monotone(cfg: Config)
  {
    forall a: nat, b: nat :: a <= b ==> cfg.toMsecs(a) <= cfg.toMsecs(b)
  }

  // an older request of the same kind, at a later time, has expired as well
  lemma ExpiryIsMonotone(cfg: Config, t: jiffies, r: Request, now: jiffies, older: Request)
    requires Monotone(cfg) && Expired(cfg, t, r)
    requires older.stamp <= r.stamp <= t <= now && older.isRead == r.isRead
    ensures Expired(cfg, now, older)
  {
    assert cfg.toMsecs(t - r.stamp) <= cfg.toMsecs(now - older.stamp);
  }

  predicate ReadWaitedOut(cfg: Config, now: jiffies, readFifo: seq<Request>)
  {
    readFifo != [] && cfg.toMsecs(Since(now, readFifo[0].stamp)) >= cfg.readDeadline
  }

  // A dispatch that this kind of request may use: any one for reads, one that
  // finds no expired read for writes.
  predicate Turn(cfg: Config, p: seq<Request>, e: Event, read: bool)
  {
    e.Serve? && (read || !ReadWaitedOut(cfg, e.clock.readTest, OfKind(p, true)))
  }

  function Turns(cfg: Config, s: State, es: seq<Event>, read: bool): nat
    decreases |es|
  {
    if es == [] then 0
    else (if Turn(cfg, s.pending, es[0], read) then 1 else 0) + Turns(cfg, Step(cfg, s, es[0]), es[1..], read)
  }

  lemma {:induction false} ServedGrows(cfg: Config, s: State, es: seq<Event>)
    ensures s.served <= Run(cfg, s, es).served
    decreases |es|
  {
    if es != [] {
      ServedGrows(cfg, Step(cfg, s, es[0]), es[1..]);
    }
  }

  /** One step, with the FIFO's head expired: a turn takes it, anything else leaves the FIFO's front alone. */
  lemma FifoStep(cfg: Config, s: State, e: Event, read: bool)
    requires OfKind(s.pending, read) != []
    requires e.Serve? ==> Expired(cfg, TestTime(e.clock, read), OfKind(s.pending, read)[0])
    ensures var f := OfKind(s.pending, read);
      var f' := OfKind(Step(cfg, s, e).pending, read);
      if Turn(cfg, s.pending, e, read)
      then f' == f[1..] && Step(cfg, s, e).served == s.served + [f[0]]
      else f <= f'
  {
    var p := s.pending;
    match e
    case Arrive(r) => OfKindAppend(p, r, read);
    case Serve(clock) =>
      HeadExpiredMeans(cfg, clock.readTest, p);
      var r := Pick(cfg, clock, p).value;
      OfKindRemove(p, r, read);
      if HeadExpired(cfg, clock.readTest, p, true) {
        OfKindMembers(p, true, OfKind(p, true)[0]);
      } else {
        OfKindMembers(p, read, OfKind(p, read)[0]);
      }
  }

  ghost predicate ServedAfter(es: seq<Event>, t: jiffies)
  {
    forall i :: 0 <= i < |es| && es[i].Serve? ==> t <= es[i].clock.readTest && t <= es[i].clock.writeTest
  }

  lemma {:induction false} FifoLatency(cfg: Config, s: State, es: seq<Event>, read: bool, k: nat, t: jiffies)
    requires Monotone(cfg) && ServedAfter(es, t)
    requires var f := OfKind(s.pending, read);
      && k < |f| && f[k].stamp <= t && Expired(cfg, t, f[k])
      && forall j :: 0 <= j <= k ==> f[j].stamp <= f[k].stamp
    requires Turns(cfg, s, es, read) > k
    ensures |s.served| <= |Run(cfg, s, es).served|
    ensures OfKind(s.pending, read)[k] in Run(cfg, s, es).served[|s.served|..]
    decreases |es|
  {
    hide OfKind, Step, Expired, Turn, Monotone;
    var f := OfKind(s.pending, read);
    var e := es[0];
    var s1 := Step(cfg, s, e);
    OfKindMembers(s.pending, read, f[0]);
    OfKindMembers(s.pending, read, f[k]);
    if e.Serve? {
      ExpiryIsMonotone(cfg, t, f[k], TestTime(e.clock, read), f[0]);
    }
    FifoStep(cfg, s, e, read);
    var f1 := OfKind(s1.pending, read);
    ServedGrows(cfg, s, [e]);
    ServedGrows(cfg, s1, es[1..]);
    var served := Run(cfg, s, es).served;
    assert s.served <= s1.served <= served;
    assert forall r :: r in served[|s1.served|..] ==> r in served[|s.served|..];
    if Turn(cfg, s.pending, e, read) {
      if k == 0 {
        assert served[|s.served|] == f[0];
      } else {
        assert forall j :: 0 <= j <= k - 1 ==> f1[j] == f[j + 1];
        FifoLatency(cfg, s1, es[1..], read, k - 1, t);
      }
    } else {
      assert forall j :: 0 <= j <= k ==> f1[j] == f[j];
      FifoLatency(cfg, s1, es[1..], read, k, t);
    }
  }

  // ----- Arrival order

  // arrivals carry non-decreasing stamps, from `last` on
  ghost predicate InOrder(es: seq<Event>, last: jiffies)
    decreases |es|
  {
    es == [] ||
    if es[0].Arrive? then last <= es[0].r.stamp && InOrder(es[1..], es[0].r.stamp) else InOrder(es[1..], last)
  }

  ghost predicate StampsOrdered(p: seq<Request>, last: jiffies)
  {
    && (forall i, j :: 0 <= i < j < |p| ==> p[i].stamp <= p[j].stamp)
    && forall i :: 0 <= i < |p| ==> p[i].stamp <= last
  }

  lemma {:induction false} RemoveKeepsStamps(p: seq<Request>, r: Request, last: jiffies)
    requires StampsOrdered(p, last)
    ensures StampsOrdered(Remove(p, r), last)
  {
    if p != [] && p[0] != r {
      RemoveKeepsStamps(p[1..], r, last);
      RemoveSubset(p[1..], r);
      var t := Remove(p[1..], r);
      forall i | 0 <= i < |t|
        ensures p[0].stamp <= t[i].stamp
      {
        assert t[i] in p[1..];
      }
    }
  }

  lemma ConsKeepsStamps(r: Request, t: seq<Request>, last: jiffies)
    requires StampsOrdered(t, last) && r.stamp <= last && forall i :: 0 <= i < |t| ==> r.stamp <= t[i].stamp
    ensures StampsOrdered([r] + t, last)
  {
    var q := [r] + t;
    forall i, j | 0 <= i < j < |q|
      ensures q[i].stamp <= q[j].stamp
    {
      assert q[j] == t[j - 1];
    }
  }

  lemma {:induction false} OfKindKeepsStamps(p: seq<Request>, read: bool, last: jiffies)
    requires StampsOrdered(p, last)
    ensures StampsOrdered(OfKind(p, read), last)
  {
    if p != [] {
      hide OfKind;
      OfKindKeepsStamps(p[1..], read, last);
      OfKindCons(p, read);
      var t := OfKind(p[1..], read);
      forall i | 0 <= i < |t|
        ensures p[0].stamp <= t[i].stamp
      {
        OfKindMembers(p[1..], read, t[i]);
        var j :| 0 <= j < |p[1..]| && p[1..][j] == t[i];
        assert p[j + 1] == t[i];
      }
      ConsKeepsStamps(p[0], t, last);
      assert [] + t == t;
    }
  }

  lemma {:induction false} RunKeepsStamps(cfg: Config, s: State, es: seq<Event>, last: jiffies) returns (last': jiffies)
    requires StampsOrdered(s.pending, last) && InOrder(es, last)
    ensures StampsOrdered(Run(cfg, s, es).pending, last')
    decreases |es|
  {
    if es == [] {
      last' := last;
    } else {
      var e := es[0];
      if e.Serve? && Pick(cfg, e.clock, s.pending).Some? {
        RemoveKeepsStamps(s.pending, Pick(cfg, e.clock, s.pending).value, last);
      }
      last' := RunKeepsStamps(cfg, Step(cfg, s, e), es[1..], if e.Arrive? then e.r.stamp else last);
    }
  }

  const IDLE := State([], [])

  /**
   * The latency promise. After any history with arrivals stamped in order, let
   * a request stand at position k of its FIFO and be expired at time t. If the
   * clock does not run back, then a read is served by the (k+1)-th dispatch, and
   * a write by the (k+1)-th dispatch that finds no expired read, whatever else
   * arrives in the meantime.
   */
  lemma ExpiredIsServed(cfg: Config, history: seq<Event>, es: seq<Event>, read: bool, k: nat, t: jiffies)
    requires Monotone(cfg) && InOrder(history, 0) && ServedAfter(es, t)
    requires var s := Run(cfg, IDLE, history);
      && k < |OfKind(s.pending, read)|
      && OfKind(s.pending, read)[k].stamp <= t
      && cfg.toMsecs(t - OfKind(s.pending, read)[k].stamp) >= (if read then cfg.readDeadline else cfg.writeDeadline)
      && Turns(cfg, s, es, read) >= k + 1
    ensures var s := Run(cfg, IDLE, history);
      && |s.served| <= |Run(cfg, s, es).served|
      && OfKind(s.pending, read)[k] in Run(cfg, s, es).served[|s.served|..]
  {
    var s := Run(cfg, IDLE, history);
    var last := RunKeepsStamps(cfg, IDLE, history, 0);
    OfKindKeepsStamps(s.pending, read, last);
    OfKindMembers(s.pending, read, OfKind(s.pending, read)[k]);
    FifoLatency(cfg, s, es, read, k, t);
  }

  function Dispatches(es: seq<Event>): nat
  {
    if es == [] then 0 else (if es[0].Serve? then 1 else 0) + Dispatches(es[1..])
  }

  /** For reads every dispatch is a turn, whatever arrives in between. */
  lemma {:induction false} ReadTurns(cfg: Config, s: State, es: seq<Event>)
    ensures Turns(cfg, s, es, true) == Dispatches(es)
    decreases |es|
  {
    if es != [] {
      ReadTurns(cfg, Step(cfg, s, es[0]), es[1..]);
    }
  }
}
