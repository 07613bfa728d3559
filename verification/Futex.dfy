// The futex locks of demos/futex/futex_v3_futex_lock.c and futex_v4_final.c,
// as a step relation: any number of threads, sequentially consistent memory,
// FUTEX_WAIT as an atomic compare-and-enqueue, FUTEX_WAKE of one arbitrary
// sleeper, and spurious wakeups at any time.
module Futex {
  import opened Sums
  import Spinlock

  // WakeFirst is version 4 with the two halves of futex_unlock exchanged, the
  // order that the sources warn against.
  datatype Variant = V3 | V4 | WakeFirst

  datatype Pc =
    | Head                // loop test of worker
    | FirstCas            // fast path of futex_lock
    | ReadLock            // version 4: old = lock
    | CallWait(expected: int)  // about to enter FUTEX_WAIT with the expected value
    | Asleep              // enqueued in the kernel
    | RetryCas
    | Load                // counter++, first half
    | Store(tmp: int)     // counter++, second half
    | Release             // lock = 0
    | Wake                // about to enter FUTEX_WAKE
    | Done

  datatype Thread = Thread(pc: Pc, i: nat)

  datatype State = State(lock: int, counter: int, threads: seq<Thread>)

  datatype Action =
    | Run(t: nat)                     // t takes its next step; a FUTEX_WAKE finds no sleeper
    | WakeUp(t: nat, sleeper: nat)    // t's FUTEX_WAKE wakes this sleeper
    | Spurious(t: nat)                // a signal ends t's sleep

  function Init(n: nat): State
  {
    State(0, 0, seq(n, _ => Thread(Head, 0)))
  }

  function SetPc(s: State, t: nat, pc: Pc): State
    requires t < |s.threads|
  {
    s.(threads := s.threads[t := s.threads[t].(pc := pc)])
  }

  // where a failed compare-and-swap leads
  function AfterFailedCas(v: Variant): Pc
  {
    if v.V3? then CallWait(1) else ReadLock
  }

  // where a return from FUTEX_WAIT leads, whatever its cause
  function AfterWait(v: Variant): Pc
  {
    if v.V3? then RetryCas else ReadLock
  }

  // the end of futex_unlock: the worker goes on with its next iteration
  function FinishIteration(s: State, t: nat): State
    requires t < |s.threads|
  {
    s.(threads := s.threads[t := Thread(Head, s.threads[t].i + 1)])
  }

  function AfterWake(v: Variant, s: State, t: nat): State
    requires t < |s.threads|
  {
    if v.WakeFirst? then SetPc(s, t, Release) else FinishIteration(s, t)
  }

  predicate Enabled(s: State, a: Action)
  {
    match a
    case Run(t) =>
      && t < |s.threads|
      && !s.threads[t].pc.Asleep?
      && !s.threads[t].pc.Done?
      && (s.threads[t].pc.Wake? ==> forall u :: 0 <= u < |s.threads| ==> !s.threads[u].pc.Asleep?)
    case WakeUp(t, u) =>
      t < |s.threads| && u < |s.threads| && s.threads[t].pc.Wake? && s.threads[u].pc.Asleep?
    case Spurious(t) =>
      t < |s.threads| && s.threads[t].pc.Asleep?
  }

  function Next(v: Variant, k: nat, s: State, a: Action): (s': State)
    requires Enabled(s, a)
  {
    match a
    case Run(t) => RunThread(v, k, s, t)
    case WakeUp(t, u) => AfterWake(v, SetPc(s, u, AfterWait(v)), t)
    case Spurious(t) => SetPc(s, t, AfterWait(v))
  }

  function RunThread(v: Variant, k: nat, s: State, t: nat): (s': State)
    requires t < |s.threads|
  {
    var th := s.threads[t];
    match th.pc
    case Head => SetPc(s, t, if th.i < k then FirstCas else Done)
    case FirstCas =>
      if s.lock == 0 then SetPc(s, t, Load).(lock := 1) else SetPc(s, t, AfterFailedCas(v))
    case ReadLock => SetPc(s, t, if s.lock != 0 then CallWait(s.lock) else RetryCas)
    case CallWait(expected) => SetPc(s, t, if s.lock == expected then Asleep else AfterWait(v))
    case Asleep => s
    case RetryCas =>
      if s.lock == 0 then SetPc(s, t, Load).(lock := 1) else SetPc(s, t, AfterFailedCas(v))
    case Load => SetPc(s, t, Store(s.counter))
    case Store(tmp) => SetPc(s, t, if v.WakeFirst? then Wake else Release).(counter := tmp + 1)
    case Release =>
      if v.WakeFirst? then FinishIteration(s, t).(lock := 0) else SetPc(s, t, Wake).(lock := 0)
    case Wake => AfterWake(v, s, t)
    case Done => s
  }

  /** The actions `acts`, each enabled in turn, take `s` to `s'`. */
  ghost predicate Leads(v: Variant, k: nat, s: State, acts: seq<Action>, s': State)
    decreases |acts|
  {
    if acts == [] then s == s'
    else Enabled(s, acts[0]) && Leads(v, k, Next(v, k, s, acts[0]), acts[1..], s')
  }

  ghost predicate Reachable(v: Variant, n: nat, k: nat, s: State)
  {
    exists acts :: Leads(v, k, Init(n), acts, s)
  }

  // ----- Refinement of the spin lock

  // Everything inside futex_lock is the spin lock's compare-and-swap loop; a
  // thread that has stored lock = 0 has left spin_unlock already.
  function AbsThread(th: Thread): Spinlock.Thread
  {
    match th.pc
    case Head => Spinlock.Thread(Spinlock.Head, th.i)
    case Load => Spinlock.Thread(Spinlock.Load, th.i)
    case Store(tmp) => Spinlock.Thread(Spinlock.Store(tmp), th.i)
    case Release => Spinlock.Thread(Spinlock.Release, th.i)
    case Wake => Spinlock.Thread(Spinlock.Head, th.i + 1)
    case Done => Spinlock.Thread(Spinlock.Done, th.i)
    case _ => Spinlock.Thread(Spinlock.Acquire, th.i)
  }

  function Abs(s: State): Spinlock.State
  {
    Spinlock.State(s.lock, s.counter, seq(|s.threads|, t requires 0 <= t < |s.threads| => AbsThread(s.threads[t])))
  }

  lemma RunThreadRefines(v: Variant, k: nat, s: State, t: nat)
    requires !v.WakeFirst? && t < |s.threads|
    ensures Abs(RunThread(v, k, s, t)) == Abs(s) || Abs(RunThread(v, k, s, t)) == Spinlock.Next(k, Abs(s), t)
  {
    var s' := RunThread(v, k, s, t);
    if s.threads[t].pc.Head? || Spinlock.InCritical(AbsThread(s.threads[t])) || s'.threads[t].pc.Load? {
      assert Abs(s') == Spinlock.Next(k, Abs(s), t);
    } else {
      assert Abs(s') == Abs(s);
    }
  }

  lemma StepRefines(v: Variant, k: nat, s: State, a: Action)
    requires !v.WakeFirst? && Enabled(s, a)
    ensures Abs(Next(v, k, s, a)) == Abs(s)
         || Abs(Next(v, k, s, a)) == Spinlock.Next(k, Abs(s), a.t)
  {
    match a
    case Run(t) => RunThreadRefines(v, k, s, t);
    case WakeUp(t, u) => assert Abs(Next(v, k, s, a)) == Abs(s);
    case Spurious(t) => assert Abs(Next(v, k, s, a)) == Abs(s);
  }

  /** Every run of a futex lock is, up to stuttering, a run of the spin lock. */
  lemma {:induction false} RunRefines(v: Variant, k: nat, s: State, acts: seq<Action>, s': State) returns (ts: seq<nat>)
    requires !v.WakeFirst? && Leads(v, k, s, acts, s')
    ensures Spinlock.Leads(k, Abs(s), ts, Abs(s'))
    ensures |ts| <= |acts|
    decreases |acts|
  {
    if acts == [] {
      ts := [];
    } else {
      var s1 := Next(v, k, s, acts[0]);
      ts := RunRefines(v, k, s1, acts[1..], s');
      StepRefines(v, k, s, acts[0]);
      if Abs(s1) != Abs(s) {
        ts := [acts[0].t] + ts;
        assert ts[1..] == ts[1..];
      }
    }
  }

  lemma ReachableRefines(v: Variant, n: nat, k: nat, s: State)
    requires !v.WakeFirst? && Reachable(v, n, k, s)
    ensures Spinlock.Reachable(n, k, Abs(s))
  {
    var acts :| Leads(v, k, Init(n), acts, s);
    var ts := RunRefines(v, k, Init(n), acts, s);
    assert Abs(Init(n)) == Spinlock.Init(n);
  }

  predicate InCritical(th: Thread)
  {
    th.pc.Load? || th.pc.Store? || th.pc.Release?
  }

  function Holds(th: Thread): nat
  {
    if InCritical(th) then 1 else 0
  }

  lemma {:induction false} AbsHolds(ths: seq<Thread>, abs: seq<Spinlock.Thread>)
    requires |abs| == |ths| && forall t :: 0 <= t < |ths| ==> abs[t] == AbsThread(ths[t])
    ensures Sum(Spinlock.Holds, abs) == Sum(Holds, ths)
  {
    if ths != [] {
      AbsHolds(ths[..|ths| - 1], abs[..|abs| - 1]);
    }
  }

  /**
   * Mutual exclusion, inherited from the spin lock: the number of threads
   * between a successful compare-and-swap and the store lock = 0 is the lock word.
   */
  lemma MutualExclusion(v: Variant, n: nat, k: nat, s: State, t: nat, u: nat)
    requires !v.WakeFirst? && Reachable(v, n, k, s) && t < n && u < n
    ensures |s.threads| == n && Sum(Holds, s.threads) == s.lock <= 1
    ensures InCritical(s.threads[t]) && InCritical(s.threads[u]) ==> t == u
  {
    ReachableRefines(v, n, k, s);
    Spinlock.MutualExclusion(n, k, Abs(s), t, u);
    AbsHolds(s.threads, Abs(s).threads);
    assert forall x :: 0 <= x < n ==> Abs(s).threads[x] == AbsThread(s.threads[x]);
  }

  ghost predicate AllDone(s: State)
  {
    forall t :: 0 <= t < |s.threads| ==> s.threads[t].pc.Done?
  }

  /** The unprotected-looking counter++ never loses an increment. */
  lemma FinalCounter(v: Variant, n: nat, k: nat, s: State)
    requires !v.WakeFirst? && Reachable(v, n, k, s) && AllDone(s)
    ensures s.counter == n * k
  {
    ReachableRefines(v, n, k, s);
    Spinlock.ReachableInv(n, k, Abs(s));
    Spinlock.FinalCounter(n, k, Abs(s));
  }

  // ----- No lost wakeup

  predicate AwakeInLock(th: Thread)
  {
    th.pc.FirstCas? || th.pc.ReadLock? || th.pc.CallWait? || th.pc.RetryCas?
  }

  ghost predicate SleeperHasAWaker(s: State)
  {
    (exists t :: 0 <= t < |s.threads| && s.threads[t].pc.Asleep?) ==>
      || s.lock == 1
      || exists t :: 0 <= t < |s.threads| && (s.threads[t].pc.Wake? || AwakeInLock(s.threads[t]))
  }

  ghost predicate WaitsOnHeldLock(s: State)
  {
    forall t :: 0 <= t < |s.threads| ==> s.threads[t].pc.CallWait? ==> s.threads[t].pc.expected == 1
  }

  // What a futex lock adds to the spin lock's invariant.
  ghost predicate Inv(n: nat, k: nat, s: State)
  {
    && Spinlock.Inv(n, k, Abs(s))
    && WaitsOnHeldLock(s)
    && SleeperHasAWaker(s)
  }

  lemma StepKeepsWaits(v: Variant, k: nat, s: State, a: Action)
    requires 0 <= s.lock <= 1 && WaitsOnHeldLock(s) && Enabled(s, a)
    ensures WaitsOnHeldLock(Next(v, k, s, a))
  {
  }

  lemma StepKeepsWaker(v: Variant, k: nat, s: State, a: Action)
    requires !v.WakeFirst? && 0 <= s.lock <= 1 && WaitsOnHeldLock(s) && SleeperHasAWaker(s) && Enabled(s, a)
    ensures SleeperHasAWaker(Next(v, k, s, a))
  {
    var s' := Next(v, k, s, a);
    var before := if a.Run? then s.threads[a.t].pc else Asleep;
    if a.WakeUp? {
      assert AwakeInLock(s'.threads[a.sleeper]);
    } else if a.Spurious? || AwakeInLock(s.threads[a.t]) {
      assert AwakeInLock(s'.threads[a.t]) || s'.lock == 1;
    } else if before.Wake? {
      assert forall u :: 0 <= u < |s'.threads| ==> !s'.threads[u].pc.Asleep?;
    } else if before.Release? {
      assert s'.threads[a.t].pc.Wake?;
    } else if (exists t :: 0 <= t < |s'.threads| && s'.threads[t].pc.Asleep?) && s'.lock != 1 {
      var t :| 0 <= t < |s'.threads| && s'.threads[t].pc.Asleep?;
      assert s.threads[t].pc.Asleep?;
      var w :| 0 <= w < |s.threads| && (s.threads[w].pc.Wake? || AwakeInLock(s.threads[w]));
      assert s'.threads[w] == s.threads[w];
    }
  }

  lemma StepInv(v: Variant, n: nat, k: nat, s: State, a: Action)
    requires !v.WakeFirst? && Inv(n, k, s) && Enabled(s, a)
    ensures Inv(n, k, Next(v, k, s, a))
  {
    StepRefines(v, k, s, a);
    Spinlock.StepInv(n, k, Abs(s), a.t);
    StepKeepsWaits(v, k, s, a);
    StepKeepsWaker(v, k, s, a);
  }

  lemma {:induction false} RunInv(v: Variant, n: nat, k: nat, s: State, acts: seq<Action>, s': State)
    requires !v.WakeFirst? && Inv(n, k, s) && Leads(v, k, s, acts, s')
    ensures Inv(n, k, s')
    decreases |acts|
  {
    if acts != [] {
      StepInv(v, n, k, s, acts[0]);
      RunInv(v, n, k, Next(v, k, s, acts[0]), acts[1..], s');
    }
  }

  lemma ReachableInv(v: Variant, n: nat, k: nat, s: State)
    requires !v.WakeFirst? && Reachable(v, n, k, s)
    ensures Inv(n, k, s)
  {
    var acts :| Leads(v, k, Init(n), acts, s);
    Spinlock.InitInv(n, k);
    assert Abs(Init(n)) == Spinlock.Init(n);
    RunInv(v, n, k, Init(n), acts, s);
  }

  /** The thread in the critical section, when the lock is held. */
  lemma Holder(n: nat, k: nat, s: State) returns (t: nat)
    requires Inv(n, k, s) && s.lock == 1
    ensures t < |s.threads| == n && InCritical(s.threads[t])
  {
    t := SumPositive(Spinlock.Holds, Abs(s).threads);
  }

  predicate Unfinished(th: Thread)
  {
    !th.pc.Done?
  }

  /**
   * No lost wakeup. In every reachable state, a sleeper implies that the lock
   * is held, or that some thread is about to call FUTEX_WAKE, or that some
   * awake thread is trying to take the lock. So unfinished threads are never
   * all asleep.
   */
  lemma NoLostWakeup(v: Variant, n: nat, k: nat, s: State)
    requires !v.WakeFirst? && Reachable(v, n, k, s)
    ensures SleeperHasAWaker(s)
    ensures !AllDone(s) ==> exists t :: 0 <= t < |s.threads| && Unfinished(s.threads[t]) && !s.threads[t].pc.Asleep?
  {
    ReachableInv(v, n, k, s);
    if s.lock == 1 {
      var t := Holder(n, k, s);
      assert Unfinished(s.threads[t]) && !s.threads[t].pc.Asleep?;
    } else if exists t :: 0 <= t < |s.threads| && s.threads[t].pc.Asleep? {
      var t :| 0 <= t < |s.threads| && (s.threads[t].pc.Wake? || AwakeInLock(s.threads[t]));
      assert Unfinished(s.threads[t]) && !s.threads[t].pc.Asleep?;
    }
  }

  // ----- A blocked contender sleeps

  // one step of a contender while the lock is held
  lemma BlockedStep(v: Variant, k: nat, s: State, t: nat)
    requires !v.WakeFirst? && WaitsOnHeldLock(s) && s.lock == 1
    requires t < |s.threads| && (AwakeInLock(s.threads[t]) || s.threads[t].pc.Asleep?)
    ensures var s' := RunThread(v, k, s, t);
      && |s'.threads| == |s.threads| && s' == SetPc(s, t, s'.threads[t].pc)
      && WaitsOnHeldLock(s') && (AwakeInLock(s'.threads[t]) || s'.threads[t].pc.Asleep?)
  {
    var s' := RunThread(v, k, s, t);
    assert s'.threads == s.threads[t := s.threads[t].(pc := s'.threads[t].pc)];
  }

  /**
   * Three steps of its own put a contender to sleep while the lock is held, and
   * they leave everything else alone. (A sleeping thread takes no step.)
   */
  lemma BlockedSleeps(v: Variant, k: nat, s: State, t: nat)
    requires !v.WakeFirst? && WaitsOnHeldLock(s) && s.lock == 1
    requires t < |s.threads| && AwakeInLock(s.threads[t])
    ensures var s1 := RunThread(v, k, s, t);
      && |s1.threads| == |s.threads|
      && var s2 := RunThread(v, k, s1, t);
      && |s2.threads| == |s.threads|
      && RunThread(v, k, s2, t) == SetPc(s, t, Asleep)
  {
    BlockedStep(v, k, s, t);
    var s1 := RunThread(v, k, s, t);
    BlockedStep(v, k, s1, t);
    var s2 := RunThread(v, k, s1, t);
    BlockedStep(v, k, s2, t);
    var s3 := RunThread(v, k, s2, t);
    assert s3.threads == s.threads[t := s.threads[t].(pc := Asleep)];
  }

  // own steps that a thread inside futex_lock takes at most before it sleeps
  function Distance(v: Variant, pc: Pc): nat
  {
    match pc
    case Asleep => 0
    case CallWait(_) => 1
    case ReadLock => 2
    case FirstCas => if v.V3? then 2 else 3
    case RetryCas => if v.V3? then 2 else 3
    case _ => 0
  }

  predicate InLock(th: Thread)
  {
    th.pc.Asleep? || AwakeInLock(th)
  }

  // the lock is held at every point of the run
  ghost predicate HeldThroughout(v: Variant, k: nat, s: State, acts: seq<Action>)
    decreases |acts|
  {
    s.lock == 1 && (acts != [] ==> Enabled(s, acts[0]) && HeldThroughout(v, k, Next(v, k, s, acts[0]), acts[1..]))
  }

  function OwnSteps(acts: seq<Action>, t: nat): nat
  {
    if acts == [] then 0 else (if acts[0] == Run(t) then 1 else 0) + OwnSteps(acts[1..], t)
  }

  function Wakeups(acts: seq<Action>, t: nat): nat
  {
    if acts == [] then 0
    else (if acts[0] == Spurious(t) || (acts[0].WakeUp? && acts[0].sleeper == t) then 1 else 0) + Wakeups(acts[1..], t)
  }

  lemma StepShortensDistance(v: Variant, k: nat, s: State, a: Action, t: nat)
    requires !v.WakeFirst? && s.lock == 1 && WaitsOnHeldLock(s) && Enabled(s, a)
    requires t < |s.threads| && InLock(s.threads[t])
    ensures var th' := Next(v, k, s, a).threads[t];
      && InLock(th') && th'.i == s.threads[t].i
      && Distance(v, th'.pc) + OwnSteps([a], t) <= Distance(v, s.threads[t].pc) + 2 * Wakeups([a], t)
  {
    assert [a][1..] == [];
  }

  lemma {:induction false} SleepsWhileHeld(v: Variant, k: nat, s: State, acts: seq<Action>, s': State, t: nat)
    requires !v.WakeFirst? && 0 <= s.lock <= 1 && WaitsOnHeldLock(s)
    requires Leads(v, k, s, acts, s') && HeldThroughout(v, k, s, acts)
    requires t < |s.threads| && InLock(s.threads[t])
    ensures t < |s'.threads| && InLock(s'.threads[t])
    ensures OwnSteps(acts, t) + Distance(v, s'.threads[t].pc) <= Distance(v, s.threads[t].pc) + 2 * Wakeups(acts, t)
    ensures OwnSteps(acts, t) <= 3 + 2 * Wakeups(acts, t)
    decreases |acts|
  {
    if acts != [] {
      var a := acts[0];
      assert OwnSteps([a], t) + OwnSteps(acts[1..], t) == OwnSteps(acts, t) by { assert [a][1..] == []; }
      assert Wakeups([a], t) + Wakeups(acts[1..], t) == Wakeups(acts, t) by { assert [a][1..] == []; }
      hide Distance, OwnSteps, Wakeups, InLock;
      StepKeepsWaits(v, k, s, a);
      StepShortensDistance(v, k, s, a, t);
      SleepsWhileHeld(v, k, Next(v, k, s, a), acts[1..], s', t);
    } else {
      assert Distance(v, s.threads[t].pc) <= 3;
    }
  }

  /**
   * Blocked threads sleep instead of spinning: while the lock stays held, a
   * thread inside futex_lock stays there and takes at most three steps of its
   * own, and two more for every time it is woken.
   */
  lemma ContendersSleep(v: Variant, n: nat, k: nat, s: State, acts: seq<Action>, s': State, t: nat)
    requires !v.WakeFirst? && Reachable(v, n, k, s)
    requires Leads(v, k, s, acts, s') && HeldThroughout(v, k, s, acts)
    requires t < |s.threads| && InLock(s.threads[t])
    ensures t < |s'.threads| && InLock(s'.threads[t])
    ensures OwnSteps(acts, t) <= 3 + 2 * Wakeups(acts, t)
  {
    hide Leads;
    ReachableInv(v, n, k, s);
    SleepsWhileHeld(v, k, s, acts, s', t);
  }

  // ----- What ends a sleep

  /** A sleeper wakes at FUTEX_WAKE if it is the one chosen, or at any time by itself, and by nothing else. */
  lemma WhatEndsASleep(v: Variant, k: nat, s: State, a: Action, t: nat)
    requires t < |s.threads| && s.threads[t].pc.Asleep?
    ensures Enabled(s, Spurious(t))
    ensures forall u :: 0 <= u < |s.threads| && s.threads[u].pc.Wake? ==> Enabled(s, WakeUp(u, t)) && !Enabled(s, Run(u))
    ensures Enabled(s, a) ==>
      (!Next(v, k, s, a).threads[t].pc.Asleep? <==> a == Spurious(t) || (a.WakeUp? && a.sleeper == t))
  {
  }

  // ----- How the two versions retry

  // version 3 never reads the lock word on its own
  ghost predicate NoReads(s: State)
  {
    forall t :: 0 <= t < |s.threads| ==> !s.threads[t].pc.ReadLock?
  }

  lemma {:induction false} V3NeverReads(k: nat, s: State, acts: seq<Action>, s': State)
    requires NoReads(s) && Leads(V3, k, s, acts, s')
    ensures NoReads(s')
    decreases |acts|
  {
    if acts != [] {
      V3NeverReads(k, Next(V3, k, s, acts[0]), acts[1..], s');
    }
  }

  /**
   * In version 4 a thread tries again only after it has seen the lock free, and
   * waits only on the value it has seen. In version 3 it tries again after every
   * wait.
   */
  lemma RetriesAfterLooking(v: Variant, k: nat, s: State, a: Action, t: nat)
    requires Enabled(s, a) && t < |s.threads|
    ensures var pc, pc' := s.threads[t].pc, Next(v, k, s, a).threads[t].pc;
      && (v.V4? && pc'.RetryCas? && pc != pc' ==> pc.ReadLock? && s.lock == 0)
      && (v.V4? && pc'.CallWait? && pc != pc' ==> pc.ReadLock? && pc'.expected == s.lock != 0)
      && (v.V3? && (pc.Asleep? || pc.CallWait?) && pc != pc' ==> pc'.RetryCas? || (pc'.Asleep? && s.lock == pc.expected))
  {
  }

  // ----- Completion is always possible

  function Rank(pc: Pc): nat
  {
    match pc
    case Head => 11
    case FirstCas => 10
    case Asleep => 10
    case CallWait(_) => 9
    case ReadLock => 8
    case RetryCas => 7
    case Load => 4
    case Store(_) => 3
    case Release => 2
    case Wake => 1
    case Done => 0
  }

  // Steps that a thread still needs on a schedule that never spins.
  function Work(k: nat, th: Thread): nat
  {
    (if th.i <= k then 16 * (k - th.i) else 0) + Rank(th.pc)
  }

  function TotalWork(k: nat, s: State): nat
  {
    Sum(th => Work(k, th), s.threads)
  }

  lemma ThreadFacts(n: nat, k: nat, s: State, t: nat)
    requires Inv(n, k, s) && t < n
    ensures t < |s.threads| && s.threads[t].i <= k
    ensures s.threads[t].pc.Wake? ==> s.threads[t].i < k
    ensures InCritical(s.threads[t]) ==> s.threads[t].i < k && s.lock == 1
  {
    assert Spinlock.ThreadOk(k, Abs(s), Abs(s).threads[t]);
    SumAtLeast(Spinlock.Holds, Abs(s).threads, t);
  }

  lemma WorkUpdate(k: nat, s: State, s': State, t: nat)
    requires t < |s.threads| == |s'.threads| && s'.threads == s.threads[t := s'.threads[t]]
    ensures TotalWork(k, s') + Work(k, s.threads[t]) == TotalWork(k, s) + Work(k, s'.threads[t])
  {
    hide Work;
    SumUpdate(th => Work(k, th), s.threads, t, s'.threads[t]);
  }

  /** A step of the holder, or of any awake thread while the lock is free, is progress. */
  lemma RunIsProgress(v: Variant, n: nat, k: nat, s: State, t: nat)
    requires !v.WakeFirst? && Inv(n, k, s) && Enabled(s, Run(t))
    requires s.lock == 1 ==> InCritical(s.threads[t])
    ensures TotalWork(k, Next(v, k, s, Run(t))) < TotalWork(k, s)
  {
    ThreadFacts(n, k, s, t);
    hide Inv, TotalWork;
    var s' := Next(v, k, s, Run(t));
    assert s'.threads == s.threads[t := s'.threads[t]];
    WorkUpdate(k, s, s', t);
  }

  lemma WakeUpIsProgress(v: Variant, n: nat, k: nat, s: State, t: nat, u: nat)
    requires !v.WakeFirst? && Inv(n, k, s) && Enabled(s, WakeUp(t, u))
    ensures TotalWork(k, Next(v, k, s, WakeUp(t, u))) < TotalWork(k, s)
  {
    ThreadFacts(n, k, s, t);
    hide Inv, TotalWork;
    var s1 := SetPc(s, u, AfterWait(v));
    var s' := Next(v, k, s, WakeUp(t, u));
    WorkUpdate(k, s, s1, u);
    WorkUpdate(k, s1, s', t);
  }

  /** Some action other than a spurious wakeup makes progress, unless all are done. */
  lemma ProgressAction(v: Variant, n: nat, k: nat, s: State) returns (a: Action)
    requires !v.WakeFirst? && Inv(n, k, s) && !AllDone(s)
    ensures Enabled(s, a) && !a.Spurious? && TotalWork(k, Next(v, k, s, a)) < TotalWork(k, s)
  {
    var t: nat;
    if s.lock == 1 {
      t := Holder(n, k, s);
    } else if exists u :: 0 <= u < |s.threads| && s.threads[u].pc.Asleep? {
      t :| t < |s.threads| && (s.threads[t].pc.Wake? || AwakeInLock(s.threads[t]));
      if s.threads[t].pc.Wake? {
        var u :| 0 <= u < |s.threads| && s.threads[u].pc.Asleep?;
        a := WakeUp(t, u);
        WakeUpIsProgress(v, n, k, s, t, u);
        return;
      }
    } else {
      t :| t < |s.threads| && !s.threads[t].pc.Done?;
    }
    a := Run(t);
    RunIsProgress(v, n, k, s, t);
  }

  lemma {:induction false} CompletesFrom(v: Variant, n: nat, k: nat, s: State) returns (acts: seq<Action>, s': State)
    requires !v.WakeFirst? && Inv(n, k, s)
    ensures Leads(v, k, s, acts, s') && AllDone(s') && Inv(n, k, s')
    ensures forall a :: a in acts ==> !a.Spurious?
    ensures |acts| <= TotalWork(k, s)
    decreases TotalWork(k, s)
  {
    if AllDone(s) {
      acts, s' := [], s;
    } else {
      var a := ProgressAction(v, n, k, s);
      StepInv(v, n, k, s, a);
      var rest;
      rest, s' := CompletesFrom(v, n, k, Next(v, k, s, a));
      acts := [a] + rest;
      assert acts[1..] == rest;
    }
  }

  /**
   * From every reachable state all threads can finish, without any spurious
   * wakeup and within n * (16k + 11) steps, with no increment missing.
   */
  lemma CanAlwaysComplete(v: Variant, n: nat, k: nat, s: State) returns (acts: seq<Action>, s': State)
    requires !v.WakeFirst? && Reachable(v, n, k, s)
    ensures Leads(v, k, s, acts, s') && AllDone(s') && s'.counter == n * k && s'.lock == 0
    ensures forall a :: a in acts ==> !a.Spurious?
    ensures |acts| <= n * (16 * k + 11)
  {
    ReachableInv(v, n, k, s);
    acts, s' := CompletesFrom(v, n, k, s);
    Spinlock.FinalCounter(n, k, Abs(s'));
    SumConstant(Spinlock.Holds, Abs(s').threads, 0);
    forall th | th in s.threads
      ensures Work(k, th) <= 16 * k + 11
    {
    }
    SumUpper(th => Work(k, th), s.threads, 16 * k + 11);
  }

  // ----- The order of futex_unlock matters

  ghost predicate Stuck(s: State)
  {
    !AllDone(s) && forall t :: 0 <= t < |s.threads| ==> s.threads[t].pc.Done? || s.threads[t].pc.Asleep?
  }

  ghost predicate CanReach(s: State, s': State)
  {
    exists acts :: Leads(WakeFirst, 1, s, acts, s')
  }

  lemma StepBack(s: State, t: nat, s1: State, s': State)
    requires Enabled(s, Run(t)) && Next(WakeFirst, 1, s, Run(t)) == s1 && CanReach(s1, s')
    ensures CanReach(s, s')
  {
    var rest :| Leads(WakeFirst, 1, s1, rest, s');
    assert ([Run(t)] + rest)[1..] == rest;
    assert Leads(WakeFirst, 1, s, [Run(t)] + rest, s');
  }

  lemma Stays(s: State)
    ensures CanReach(s, s)
  {
    assert Leads(WakeFirst, 1, s, [], s);
  }

  // thread 0 wakes nobody, thread 1 falls asleep, and only then is the lock freed
  lemma LateStore(s: State)
    requires s == State(0, 1, [Thread(Done, 1), Thread(Asleep, 0)])
    ensures CanReach(State(1, 1, [Thread(Release, 0), Thread(Asleep, 0)]), s)
  {
    hide CanReach;
    Stays(s);
    var s1 := State(0, 1, [Thread(Head, 1), Thread(Asleep, 0)]);
    StepBack(s1, 0, s, s);
    StepBack(State(1, 1, [Thread(Release, 0), Thread(Asleep, 0)]), 0, s1, s);
  }

  lemma EarlyWake(s: State)
    requires CanReach(State(1, 1, [Thread(Release, 0), Thread(Asleep, 0)]), s)
    ensures CanReach(State(1, 1, [Thread(Wake, 0), Thread(CallWait(1), 0)]), s)
  {
    hide CanReach;
    var s2 := State(1, 1, [Thread(Release, 0), Thread(Asleep, 0)]);
    var s3 := State(1, 1, [Thread(Release, 0), Thread(CallWait(1), 0)]);
    StepBack(s3, 1, s2, s);
    StepBack(State(1, 1, [Thread(Wake, 0), Thread(CallWait(1), 0)]), 0, s3, s);
  }

  lemma BothContend(s: State)
    requires CanReach(State(1, 1, [Thread(Wake, 0), Thread(CallWait(1), 0)]), s)
    ensures CanReach(State(1, 0, [Thread(Load, 0), Thread(FirstCas, 0)]), s)
  {
    hide CanReach;
    var s4 := State(1, 1, [Thread(Wake, 0), Thread(CallWait(1), 0)]);
    var s5 := State(1, 0, [Thread(Store(0), 0), Thread(CallWait(1), 0)]);
    StepBack(s5, 0, s4, s);
    var s6 := State(1, 0, [Thread(Load, 0), Thread(CallWait(1), 0)]);
    StepBack(s6, 0, s5, s);
    var s7 := State(1, 0, [Thread(Load, 0), Thread(ReadLock, 0)]);
    StepBack(s7, 1, s6, s);
    StepBack(State(1, 0, [Thread(Load, 0), Thread(FirstCas, 0)]), 1, s7, s);
  }

  /**
   * Waking before storing lock = 0 loses a wakeup: two threads and one
   * iteration reach a state where the lock is free and the only unfinished
   * thread sleeps, with nobody left to wake it.
   */
  lemma WakeFirstLosesAWakeup() returns (s: State)
    ensures Reachable(WakeFirst, 2, 1, s) && Stuck(s) && s.lock == 0
  {
    s := State(0, 1, [Thread(Done, 1), Thread(Asleep, 0)]);
    LateStore(s);
    EarlyWake(s);
    BothContend(s);
    var s8 := State(1, 0, [Thread(Load, 0), Thread(FirstCas, 0)]);
    var s9 := State(1, 0, [Thread(Load, 0), Thread(Head, 0)]);
    StepBack(s9, 1, s8, s);
    var s10 := State(0, 0, [Thread(FirstCas, 0), Thread(Head, 0)]);
    StepBack(s10, 0, s9, s);
    assert Init(2).threads == [Thread(Head, 0), Thread(Head, 0)];
    StepBack(Init(2), 0, s10, s);
    assert s.threads[1] == Thread(Asleep, 0);
  }
}
