// The TCP congestion window of demos/tcp-congestion-control/congestion.c:
// slow start, congestion avoidance, fast retransmit and timeout (compare
// sections 3.1 and 3.2 of RFC 5681), in uint32_t arithmetic.
module Congestion {
  import opened Arith

  const MSS := 1460
  const INIT_CWND_MSS := 2
  const INIT_SSTHRESH_MSS := 64

  datatype Phase = SlowStart | Avoidance

  datatype Cc = Cc(cwnd: nat, ssthresh: nat, phase: Phase, dupacks: nat)

  datatype Event = Ack | DupAck | Timeout

  // arithmetic modulo 2^32
  function U32(x: nat): nat
  {
    x % 0x1_0000_0000
  }

  // the window in whole segments, rounded up
  function Segments(cwnd: nat): nat
  {
    U32(cwnd + MSS - 1) / MSS
  }

  const INIT := Cc(INIT_CWND_MSS * MSS, INIT_SSTHRESH_MSS * MSS, SlowStart, 0)

  function OnAck(c: Cc): Cc
    requires c.cwnd > 0
  {
    match c.phase
    case SlowStart =>
      var cwnd := U32(c.cwnd + MSS);
      c.(cwnd := cwnd, phase := if cwnd >= c.ssthresh then Avoidance else SlowStart)
    case Avoidance =>
      c.(cwnd := U32(c.cwnd + MSS * MSS / c.cwnd))
  }

  function OnDupAck(c: Cc): Cc
  {
    if U32(c.dupacks + 1) == 3 then
      var ssthresh := U32(Segments(c.cwnd) / 2 * MSS);
      Cc(U32(ssthresh + 3 * MSS), ssthresh, Avoidance, 0)
    else
      c.(dupacks := U32(c.dupacks + 1))
  }

  function OnTimeout(c: Cc): Cc
  {
    Cc(MSS, U32(Segments(c.cwnd) / 2 * MSS), SlowStart, 0)
  }

  function Step(c: Cc, e: Event): Cc
    requires c.cwnd > 0
  {
    match e
    case Ack => OnAck(c)
    case DupAck => OnDupAck(c)
    case Timeout => OnTimeout(c)
  }

  // ----- Global bounds

  predicate Inv(c: Cc)
  {
    && MSS <= c.cwnd <= MSS * MSS + 1
    && c.ssthresh % MSS == 0 && c.ssthresh <= 730 * MSS
    && c.dupacks <= 2
    && (c.phase.SlowStart? ==> c.cwnd % MSS == 0 && (c.cwnd == MSS || c.cwnd < c.ssthresh))
  }

  lemma HalfSegments(cwnd: nat)
    requires MSS <= cwnd <= MSS * MSS + 1
    ensures Segments(cwnd) == (cwnd + MSS - 1) / MSS <= 1461
    ensures Segments(cwnd) / 2 <= 730
    ensures U32(Segments(cwnd) / 2 * MSS) == Segments(cwnd) / 2 * MSS
  {
  }

  lemma SlowStartAckInv(c: Cc)
    requires Inv(c) && c.phase.SlowStart?
    ensures OnAck(c).cwnd == c.cwnd + MSS && Inv(OnAck(c))
  {
    assert c.cwnd <= 730 * MSS;
    assert (c.cwnd + MSS) % MSS == 0;
  }

  lemma GrownWindow(n: nat, cwnd: nat)
    requires 1 <= cwnd <= n + 1
    ensures n / cwnd >= 0 && cwnd + n / cwnd <= n + 1
  {
    if cwnd <= n {
      SumOfQuotient(cwnd, n);
    } else {
      DivModUnique(n, 0, n, cwnd);
    }
  }

  lemma AvoidanceAckInv(c: Cc)
    requires Inv(c) && c.phase.Avoidance?
    ensures OnAck(c).cwnd == c.cwnd + MSS * MSS / c.cwnd && Inv(OnAck(c))
  {
    GrownWindow(MSS * MSS, c.cwnd);
  }

  lemma LossInv(c: Cc, e: Event)
    requires Inv(c) && !e.Ack?
    ensures Inv(Step(c, e))
  {
    HalfSegments(c.cwnd);
    var half := Segments(c.cwnd) / 2;
    assert half * MSS % MSS == 0;
  }

  lemma StepInv(c: Cc, e: Event)
    requires Inv(c)
    ensures Inv(Step(c, e))
  {
    if !e.Ack? {
      LossInv(c, e);
    } else if c.phase.SlowStart? {
      SlowStartAckInv(c);
    } else {
      AvoidanceAckInv(c);
    }
  }

  /**
   * Every sequence of acknowledgements, duplicate acknowledgements and timeouts
   * keeps the window between one segment and MSS^2 + 1 bytes, so no division by
   * zero occurs.
   */
  function Run(c: Cc, es: seq<Event>): (r: Cc)
    requires Inv(c)
    ensures Inv(r)
    decreases |es|
  {
    if es == [] then c else (StepInv(c, es[0]); Run(Step(c, es[0]), es[1..]))
  }

  // ----- The 32-bit code computes the ideal window

  // half of the window in segments, as bytes
  function Half(cwnd: nat): nat
  {
    (cwnd + MSS - 1) / MSS / 2 * MSS
  }

  function IdealStep(c: Cc, e: Event): Cc
    requires c.cwnd > 0
  {
    match e
    case Ack =>
      if c.phase.Avoidance? then c.(cwnd := c.cwnd + MSS * MSS / c.cwnd)
      else c.(cwnd := c.cwnd + MSS, phase := if c.cwnd + MSS >= c.ssthresh then Avoidance else SlowStart)
    case DupAck =>
      if c.dupacks + 1 == 3 then Cc(Half(c.cwnd) + 3 * MSS, Half(c.cwnd), Avoidance, 0) else c.(dupacks := c.dupacks + 1)
    case Timeout => Cc(MSS, Half(c.cwnd), SlowStart, 0)
  }

  lemma LossIsIdeal(c: Cc, e: Event)
    requires Inv(c) && !e.Ack?
    ensures Step(c, e) == IdealStep(c, e)
  {
    assert U32(Segments(c.cwnd) / 2 * MSS) == Half(c.cwnd) <= 730 * MSS by { HalfSegments(c.cwnd); }
  }

  lemma AckIsIdeal(c: Cc)
    requires Inv(c)
    ensures OnAck(c) == IdealStep(c, Ack)
  {
    if c.phase.SlowStart? {
      SlowStartAckInv(c);
    } else {
      AvoidanceAckInv(c);
    }
  }

  /** Within the invariant no uint32_t operation wraps. */
  lemma StepIsIdeal(c: Cc, e: Event)
    requires Inv(c)
    ensures Step(c, e) == IdealStep(c, e)
  {
    hide OnAck, OnDupAck, OnTimeout, Half, Inv;
    if e.Ack? {
      AckIsIdeal(c);
    } else {
      LossIsIdeal(c, e);
    }
  }

  // ----- Reaction to loss

  /** A loss sets the threshold to half the window, to within one segment. */
  lemma LossHalves(c: Cc, e: Event)
    requires Inv(c) && (e.Timeout? || (e.DupAck? && c.dupacks == 2))
    ensures c.cwnd - MSS <= 2 * Step(c, e).ssthresh < c.cwnd + MSS
    ensures Step(c, e).cwnd == if e.Timeout? then MSS else Step(c, e).ssthresh + 3 * MSS
    ensures (Step(c, e).phase.SlowStart? <==> e.Timeout?) && Step(c, e).dupacks == 0
  {
    HalfSegments(c.cwnd);
    var k := Segments(c.cwnd);
    assert c.cwnd <= k * MSS < c.cwnd + MSS;
  }

  /**
   * RFC 5681 keeps ssthresh at two segments or more after a loss. The code does
   * so exactly when the window exceeds three segments.
   */
  lemma ThresholdFloorIff(c: Cc, e: Event)
    requires Inv(c) && (e.Timeout? || (e.DupAck? && c.dupacks == 2))
    ensures Step(c, e).ssthresh >= 2 * MSS <==> c.cwnd > 3 * MSS
  {
    HalfSegments(c.cwnd);
    var k := Segments(c.cwnd);
    assert k >= 4 <==> c.cwnd > 3 * MSS;
    assert k / 2 >= 2 <==> k >= 4;
  }

  /** Two timeouts in a row take the threshold to zero. */
  lemma ThresholdCanVanish()
    ensures Inv(INIT) && Run(INIT, [Timeout, Timeout]).ssthresh == 0
  {
    StepInv(INIT, Timeout);
    var c := Step(INIT, Timeout);
    assert c == Cc(MSS, MSS, SlowStart, 0);
    assert [Timeout, Timeout][1..] == [Timeout];
    assert Run(c, [Timeout]) == Run(Step(c, Timeout), []);
  }

  function DupAcks(es: seq<Event>): nat
  {
    if es == [] then 0 else (if es[0].DupAck? then 1 else 0) + DupAcks(es[1..])
  }

  /** Duplicates count even when other acknowledgements come between them: every third one is a loss. */
  lemma {:induction false} DupAcksAccumulate(c: Cc, es: seq<Event>)
    requires Inv(c) && Timeout !in es
    ensures Run(c, es).dupacks == (c.dupacks + DupAcks(es)) % 3
    decreases |es|
  {
    hide OnAck, OnDupAck, OnTimeout;
    if es != [] {
      StepInv(c, es[0]);
      StepCountsDup(c, es[0]);
      DupAcksAccumulate(Step(c, es[0]), es[1..]);
    }
  }

  lemma StepCountsDup(c: Cc, e: Event)
    requires Inv(c) && !e.Timeout?
    ensures Step(c, e).dupacks == (c.dupacks + if e.DupAck? then 1 else 0) % 3
  {
  }

  // ----- Growth per round

  function Acks(c: Cc, n: nat): (r: Cc)
    requires Inv(c)
    ensures Inv(r) && r.ssthresh == c.ssthresh && r.dupacks == c.dupacks && r.cwnd >= c.cwnd
    ensures c.phase.Avoidance? ==> r.phase.Avoidance?
  {
    if n == 0 then c
    else
      var d := Acks(c, n - 1);
      StepInv(d, Ack);
      StepIsIdeal(d, Ack);
      OnAck(d)
  }

  /** While the target stays at or below the threshold, every slow-start ACK adds one segment. */
  lemma {:induction false} SlowStartAcks(c: Cc, n: nat)
    requires Inv(c) && c.phase.SlowStart? && c.cwnd + n * MSS <= c.ssthresh
    ensures Acks(c, n).cwnd == c.cwnd + n * MSS
    ensures Acks(c, n).phase.Avoidance? <==> c.cwnd + n * MSS == c.ssthresh && n > 0
  {
    if n > 0 {
      SlowStartAcks(c, n - 1);
      StepIsIdeal(Acks(c, n - 1), Ack);
    }
  }

  /** A slow-start round, one ACK per segment, doubles the window exactly. */
  lemma SlowStartDoubles(c: Cc)
    requires Inv(c) && c.phase.SlowStart? && 2 * c.cwnd <= c.ssthresh
    ensures Acks(c, Segments(c.cwnd)).cwnd == 2 * c.cwnd
  {
    HalfSegments(c.cwnd);
    var m := c.cwnd / MSS;
    assert c.cwnd == m * MSS && Segments(c.cwnd) == m;
    SlowStartAcks(c, m);
  }

  lemma {:induction false} StillSlowStart(c: Cc, n: nat)
    requires Inv(c) && c.phase.SlowStart? && Acks(c, n).phase.SlowStart?
    ensures Acks(c, n).cwnd == c.cwnd + n * MSS
  {
    if n > 0 {
      StepIsIdeal(Acks(c, n - 1), Ack);
      StillSlowStart(c, n - 1);
    }
  }

  // so a round that ends in slow start has doubled the window
  lemma RoundInSlowStart(c: Cc)
    requires Inv(c) && c.phase.SlowStart?
    ensures Acks(c, Segments(c.cwnd)).phase.SlowStart? ==> Acks(c, Segments(c.cwnd)).cwnd == 2 * c.cwnd
  {
    HalfSegments(c.cwnd);
    var m := c.cwnd / MSS;
    assert c.cwnd == m * MSS && Segments(c.cwnd) == m;
    if Acks(c, m).phase.SlowStart? {
      StillSlowStart(c, m);
    }
  }

  function Rounds(c: Cc, n: nat): (r: Cc)
    requires Inv(c)
    ensures Inv(r)
  {
    if n == 0 then c else var d := Rounds(c, n - 1); Acks(d, Segments(d.cwnd))
  }

  function Power(n: nat): nat
  {
    if n == 0 then 1 else 2 * Power(n - 1)
  }

  /** While the multiple stays within the threshold, n slow-start rounds multiply the window by 2^n. */
  lemma {:induction false} RoundsMultiply(c: Cc, n: nat)
    requires Inv(c) && c.phase.SlowStart? && Power(n) * c.cwnd <= c.ssthresh
    ensures Rounds(c, n).cwnd == Power(n) * c.cwnd && Rounds(c, n).ssthresh == c.ssthresh
    ensures Rounds(c, n).phase.SlowStart? <==> n == 0 || Power(n) * c.cwnd < c.ssthresh
  {
    if n > 0 {
      assert Power(n) * c.cwnd == 2 * (Power(n - 1) * c.cwnd);
      RoundsMultiply(c, n - 1);
      var d := Rounds(c, n - 1);
      HalfSegments(d.cwnd);
      var m := d.cwnd / MSS;
      assert d.cwnd == m * MSS && Segments(d.cwnd) == m;
      SlowStartAcks(d, m);
    }
  }

  /** From the initial two segments, slow start takes exactly five rounds to its threshold of 64. */
  lemma FiveRounds()
    ensures Inv(INIT) && INIT.cwnd == 2 * 1460 && INIT.ssthresh == 64 * 1460 && INIT.phase.SlowStart?
    ensures Rounds(INIT, 4).phase.SlowStart? && Rounds(INIT, 4).cwnd == 32 * 1460
    ensures Rounds(INIT, 5).phase.Avoidance? && Rounds(INIT, 5).cwnd == 64 * 1460
  {
    assert Power(4) == 16 && Power(5) == 32;
    RoundsMultiply(INIT, 4);
    RoundsMultiply(INIT, 5);
  }

  lemma {:induction false} AvoidanceLasts(c: Cc, n: nat, m: nat)
    requires Inv(c) && n <= m && Rounds(c, n).phase.Avoidance?
    ensures Rounds(c, m).phase.Avoidance?
  {
    if n < m {
      AvoidanceLasts(c, n, m - 1);
    }
  }

  lemma FromInitFive(round: nat)
    requires Inv(INIT) && Rounds(INIT, round).phase.Avoidance?
    requires forall k :: 0 <= k < round ==> Rounds(INIT, k).phase.SlowStart?
    ensures round == 5 && Rounds(INIT, round).cwnd == 64 * MSS
  {
    hide Rounds;
    FiveRounds();
    if round < 5 {
      AvoidanceLasts(INIT, round, 4);
    }
  }

  lemma {:induction false} RoundsDouble(c: Cc, n: nat)
    requires Inv(c) && Rounds(c, n).phase.SlowStart?
    ensures Rounds(c, n).cwnd >= Power(n) * MSS && Power(n) >= n + 1
  {
    if n > 0 {
      RoundsDouble(c, n - 1);
      RoundInSlowStart(Rounds(c, n - 1));
    }
  }

  /** From any state that the events can reach, ten rounds of ACKs end slow start. */
  lemma SlowStartEndsInTenRounds(c: Cc)
    requires Inv(c)
    ensures Rounds(c, 10).phase.Avoidance?
  {
    assert Power(10) == 1024;
    if Rounds(c, 10).phase.SlowStart? {
      RoundsDouble(c, 10);
    }
  }

  lemma {:induction false} AvoidanceUpper(c: Cc, n: nat)
    requires Inv(c) && c.phase.Avoidance?
    ensures Acks(c, n).cwnd <= c.cwnd + n * (MSS * MSS / c.cwnd)
  {
    if n > 0 {
      AvoidanceUpper(c, n - 1);
      var d := Acks(c, n - 1);
      StepIsIdeal(d, Ack);
      QuotientAntitone(MSS * MSS, c.cwnd, d.cwnd);
      assert n * (MSS * MSS / c.cwnd) == (n - 1) * (MSS * MSS / c.cwnd) + MSS * MSS / c.cwnd;
    }
  }

  /** One round of congestion avoidance adds less than two segments, and at most one from a whole number of segments. */
  lemma AvoidanceRound(c: Cc)
    requires Inv(c) && c.phase.Avoidance?
    ensures Acks(c, Segments(c.cwnd)).cwnd < c.cwnd + 2 * MSS
    ensures c.cwnd % MSS == 0 ==> Acks(c, Segments(c.cwnd)).cwnd <= c.cwnd + MSS
  {
    hide Acks, Segments;
    var n, q := Segments(c.cwnd), MSS * MSS / c.cwnd;
    assert n * MSS < c.cwnd + MSS && (c.cwnd % MSS == 0 ==> n * MSS == c.cwnd) by { SegmentsFacts(c); }
    assert q * c.cwnd <= MSS * MSS by { QuotientBounds(MSS * MSS, c.cwnd); }
    AvoidanceUpper(c, n);
    RoundGrowth(c.cwnd, n, q);
  }

  lemma SegmentsFacts(c: Cc)
    requires Inv(c)
    ensures Segments(c.cwnd) * MSS < c.cwnd + MSS
    ensures c.cwnd % MSS == 0 ==> Segments(c.cwnd) * MSS == c.cwnd
  {
    HalfSegments(c.cwnd);
  }

  lemma RoundGrowth(c: nat, n: nat, q: nat)
    requires c >= MSS && n * MSS < c + MSS && q * c <= MSS * MSS
    ensures n * q < 2 * MSS
    ensures n * MSS == c ==> n * q <= MSS
  {
    MulMonotone(MSS, c, q);
    assert q <= MSS;
    MulMonotone(n * MSS, c + MSS - 1, q);
    ProductForms(c, n, q);
  }

  lemma ProductForms(c: nat, n: nat, q: nat)
    ensures n * MSS * q == n * q * MSS
    ensures (c + MSS - 1) * q == q * c + (MSS - 1) * q
  {
  }

  lemma AvoidanceAck(c: Cc, n: nat)
    requires Inv(c) && c.phase.Avoidance? && n > 0
    ensures MSS <= c.cwnd <= Acks(c, n - 1).cwnd <= Acks(c, n).cwnd
    ensures Acks(c, n).cwnd == Acks(c, n - 1).cwnd + MSS * MSS / Acks(c, n - 1).cwnd
  {
    AckIsIdeal(Acks(c, n - 1));
  }

  lemma {:induction false} AvoidanceLower(c: Cc, n: nat, top: nat, q: nat)
    requires Inv(c) && c.phase.Avoidance? && Acks(c, n).cwnd <= top && top > 0 && q == MSS * MSS / top
    ensures Acks(c, n).cwnd >= c.cwnd + n * q
  {
    if n > 0 {
      hide Acks, Inv;
      AvoidanceAck(c, n);
      AvoidanceLower(c, n - 1, top, q);
      QuotientAntitone(MSS * MSS, Acks(c, n - 1).cwnd, top);
      assert n * q == (n - 1) * q + q;
    }
  }

  /** And from a whole number of segments it adds at least MSS^2 / (cwnd + MSS) per ACK. */
  lemma AvoidanceRoundLower(c: Cc)
    requires Inv(c) && c.phase.Avoidance? && c.cwnd % MSS == 0
    ensures Acks(c, Segments(c.cwnd)).cwnd >= c.cwnd + Segments(c.cwnd) * (MSS * MSS / (c.cwnd + MSS))
  {
    hide Acks, Segments, Inv;
    AvoidanceRound(c);
    AvoidanceLower(c, Segments(c.cwnd), c.cwnd + MSS, MSS * MSS / (c.cwnd + MSS));
  }

  /** An ACK in avoidance enlarges the window exactly while it is at most MSS^2. */
  lemma AvoidanceGrowsIff(c: Cc)
    requires Inv(c) && c.phase.Avoidance?
    ensures OnAck(c).cwnd > c.cwnd <==> c.cwnd <= MSS * MSS
  {
    AvoidanceAckInv(c);
    if c.cwnd <= MSS * MSS {
      assert MSS * MSS / c.cwnd >= 1;
    }
  }

  // ----- The object and its simulation loops

  class CongestionControl {
    var cwndBytes: nat
    var ssthreshBytes: nat
    var phase: Phase
    var dupackCount: nat

    ghost function View(): Cc
      reads this
    {
      Cc(cwndBytes, ssthreshBytes, phase, dupackCount)
    }

    constructor ()
      ensures View() == INIT && Inv(View())
    {
      cwndBytes, ssthreshBytes := INIT_CWND_MSS * MSS, INIT_SSTHRESH_MSS * MSS;
      phase, dupackCount := SlowStart, 0;
    }

    method Acked()
      requires Inv(View())
      modifies this
      ensures View() == Step(old(View()), Ack) && Inv(View())
    {
      StepInv(View(), Ack);
      if phase.SlowStart? {
        cwndBytes := U32(cwndBytes + MSS);
        if cwndBytes >= ssthreshBytes {
          phase := Avoidance;
        }
      } else {
        cwndBytes := U32(cwndBytes + MSS * MSS / cwndBytes);
      }
    }

    method DuplicateAcked()
      requires Inv(View())
      modifies this
      ensures View() == Step(old(View()), DupAck) && Inv(View())
    {
      StepInv(View(), DupAck);
      dupackCount := U32(dupackCount + 1);
      if dupackCount == 3 {
        var cwndMss := U32(cwndBytes + MSS - 1) / MSS;
        ssthreshBytes := U32(cwndMss / 2 * MSS);
        cwndBytes := U32(ssthreshBytes + 3 * MSS);
        phase := Avoidance;
        dupackCount := 0;
      }
    }

    method TimedOut()
      requires Inv(View())
      modifies this
      ensures View() == Step(old(View()), Timeout) && Inv(View())
    {
      StepInv(View(), Timeout);
      var cwndMss := U32(cwndBytes + MSS - 1) / MSS;
      ssthreshBytes := U32(cwndMss / 2 * MSS);
      cwndBytes := MSS;
      phase := SlowStart;
      dupackCount := 0;
    }

    // the inner loop of both simulations: one ACK per segment
    method Round()
      requires Inv(View())
      modifies this
      ensures Inv(View()) && View() == Acks(old(View()), Segments(old(View()).cwnd))
    {
      var acksNeeded := U32(cwndBytes + MSS - 1) / MSS;
      var i := 0;
      while i < acksNeeded
        invariant 0 <= i <= acksNeeded && Inv(View())
        invariant View() == Acks(old(View()), i)
      {
        Acked();
        i := i + 1;
      }
    }

    /**
     * simulate_slow_start runs exactly the rounds that start in slow start; the
     * ten-round limit is never what ends the loop.
     */
    method SimulateSlowStart() returns (round: nat)
      requires Inv(View())
      modifies this
      ensures Inv(View()) && phase.Avoidance?
      ensures round <= 10 && View() == Rounds(old(View()), round)
      ensures forall k :: 0 <= k < round ==> Rounds(old(View()), k).phase.SlowStart?
      ensures old(View()) == INIT ==> round == 5 && cwndBytes == 64 * MSS
    {
      round := 0;
      while phase.SlowStart? && round < 10
        invariant 0 <= round <= 10 && Inv(View())
        invariant View() == Rounds(old(View()), round)
        invariant forall k :: 0 <= k < round ==> Rounds(old(View()), k).phase.SlowStart?
      {
        round := round + 1;
        Round();
      }
      if round == 10 {
        SlowStartEndsInTenRounds(old(View()));
      }
      if old(View()) == INIT {
        FromInitFive(round);
      }
    }

    /** simulate_congestion_avoidance: linear growth, by less than two segments a round. */
    method SimulateAvoidance(rttCount: int)
      requires Inv(View())
      modifies this
      ensures Inv(View()) && View() == Rounds(old(View()), if rttCount > 0 then rttCount else 0)
      ensures old(phase).Avoidance? && rttCount >= 0 ==>
        phase.Avoidance? && old(cwndBytes) <= cwndBytes <= old(cwndBytes) + rttCount * (2 * MSS)
    {
      var i := 0;
      while i < rttCount
        invariant 0 <= i && (rttCount >= 0 ==> i <= rttCount) && (rttCount < 0 ==> i == 0) && Inv(View())
        invariant View() == Rounds(old(View()), i)
        invariant old(phase).Avoidance? ==>
          phase.Avoidance? && old(cwndBytes) <= cwndBytes <= old(cwndBytes) + i * (2 * MSS)
      {
        if phase.Avoidance? {
          AvoidanceRound(View());
        }
        Round();
        i := i + 1;
      }
    }
  }
}
