// The user-space spin lock of demos/futex/futex_v1_spinlock.c, as a step
// relation over the shared words and one program counter per thread. It is the
// specification that the futex locks refine.
module Spinlock {
  import opened Sums

  datatype Pc =
    | Head              // loop test of worker
    | Acquire           // compare-and-swap in spin_lock
    | Load              // counter++, first half
    | Store(tmp: int)   // counter++, second half
    | Release           // lock = 0
    | Done

  datatype Thread = Thread(pc: Pc, i: nat)

  datatype State = State(lock: int, counter: int, threads: seq<Thread>)

  function Init(n: nat): State
  {
    State(0, 0, seq(n, _ => Thread(Head, 0)))
  }

  /** One atomic step of thread `t`, each worker running `k` iterations. */
  function Next(k: nat, s: State, t: nat): (s': State)
    requires t < |s.threads|
  {
    var th := s.threads[t];
    match th.pc
    case Head =>
      s.(threads := s.threads[t := th.(pc := if th.i < k then Acquire else Done)])
    case Acquire =>
      if s.lock == 0 then s.(lock := 1, threads := s.threads[t := th.(pc := Load)]) else s
    case Load =>
      s.(threads := s.threads[t := th.(pc := Store(s.counter))])
    case Store(tmp) =>
      s.(counter := tmp + 1, threads := s.threads[t := th.(pc := Release)])
    case Release =>
      s.(lock := 0, threads := s.threads[t := Thread(Head, th.i + 1)])
    case Done => s
  }

  /** The schedule `ts` (a thread per step) takes `s` to `s'`. */
  ghost predicate Leads(k: nat, s: State, ts: seq<nat>, s': State)
    decreases |ts|
  {
    if ts == [] then s == s'
    else ts[0] < |s.threads| && Leads(k, Next(k, s, ts[0]), ts[1..], s')
  }

  ghost predicate Reachable(n: nat, k: nat, s: State)
  {
    exists ts :: Leads(k, Init(n), ts, s)
  }

  predicate InCritical(th: Thread)
  {
    th.pc.Load? || th.pc.Store? || th.pc.Release?
  }

  function Holds(th: Thread): nat
  {
    if InCritical(th) then 1 else 0
  }

  /** Increments of the shared counter that this thread has completed. */
  function Increments(th: Thread): nat
  {
    th.i + if th.pc.Release? then 1 else 0
  }

  ghost predicate ThreadOk(k: nat, s: State, th: Thread)
  {
    && th.i <= k
    && (InCritical(th) || th.pc.Acquire? ==> th.i < k)
    && (th.pc.Done? ==> th.i == k)
    && (th.pc.Store? ==> th.pc.tmp == s.counter)
  }

  ghost predicate Inv(n: nat, k: nat, s: State)
  {
    && |s.threads| == n
    && 0 <= s.lock <= 1
    && Sum(Holds, s.threads) == s.lock
    && Sum(Increments, s.threads) == s.counter
    && forall t :: 0 <= t < n ==> ThreadOk(k, s, s.threads[t])
  }

  lemma InitInv(n: nat, k: nat)
    ensures Inv(n, k, Init(n))
  {
    SumConstant(Holds, Init(n).threads, 0);
    SumConstant(Increments, Init(n).threads, 0);
  }

  /** While one thread holds the lock, no other thread is in the critical section. */
  lemma OnlyHolder(n: nat, k: nat, s: State, t: nat, u: nat)
    requires Inv(n, k, s) && t < n && u < n && t != u
    requires InCritical(s.threads[t])
    ensures s.lock == 1 && !InCritical(s.threads[u])
  {
    SumAtLeast(Holds, s.threads, t);
    SumAtLeastTwo(Holds, s.threads, if t < u then t else u, if t < u then u else t);
  }

  lemma StepInv(n: nat, k: nat, s: State, t: nat)
    requires Inv(n, k, s) && t < n
    ensures Inv(n, k, Next(k, s, t))
  {
    var s' := Next(k, s, t);
    var th, th' := s.threads[t], s'.threads[t];
    SumUpdate(Holds, s.threads, t, th');
    SumUpdate(Increments, s.threads, t, th');
    SumAtLeast(Holds, s.threads, t);
    assert s'.threads == s.threads[t := th'];
    forall u | 0 <= u < n
      ensures ThreadOk(k, s', s'.threads[u])
    {
      assert ThreadOk(k, s, s.threads[u]);
      if u != t && InCritical(th) {
        OnlyHolder(n, k, s, t, u);
      }
    }
  }

  lemma {:induction false} RunInv(n: nat, k: nat, s: State, ts: seq<nat>, s': State)
    requires Inv(n, k, s) && Leads(k, s, ts, s')
    ensures Inv(n, k, s')
    decreases |ts|
  {
    if ts != [] {
      StepInv(n, k, s, ts[0]);
      RunInv(n, k, Next(k, s, ts[0]), ts[1..], s');
    }
  }

  lemma ReachableInv(n: nat, k: nat, s: State)
    requires Reachable(n, k, s)
    ensures Inv(n, k, s)
  {
    var ts :| Leads(k, Init(n), ts, s);
    InitInv(n, k);
    RunInv(n, k, Init(n), ts, s);
  }

  /** The lock word counts the threads inside the critical section, in every reachable state. */
  lemma MutualExclusion(n: nat, k: nat, s: State, t: nat, u: nat)
    requires Reachable(n, k, s) && t < n && u < n
    ensures |s.threads| == n && Sum(Holds, s.threads) == s.lock <= 1
    ensures InCritical(s.threads[t]) && InCritical(s.threads[u]) ==> t == u
  {
    ReachableInv(n, k, s);
    if t != u && InCritical(s.threads[t]) {
      OnlyHolder(n, k, s, t, u);
    }
  }

  ghost predicate AllDone(s: State)
  {
    forall th :: th in s.threads ==> th.pc.Done?
  }

  lemma FinalCounter(n: nat, k: nat, s: State)
    requires Inv(n, k, s) && AllDone(s)
    ensures s.counter == n * k
  {
    forall th | th in s.threads
      ensures Increments(th) == k
    {
      var t :| 0 <= t < n && s.threads[t] == th;
      assert ThreadOk(k, s, s.threads[t]);
    }
    SumConstant(Increments, s.threads, k);
  }
}
