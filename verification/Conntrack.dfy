// The connection table and the TCP tracker of demos/conntrack/conntrack.c.
module Conntrack {
  import opened Options
  import opened Sums
  import opened CInts

  datatype Tuple = Tuple(src: bv32, dst: bv32, sport: bv16, dport: bv16, proto: bv8)

  function Reverse(t: Tuple): Tuple
  {
    Tuple(t.dst, t.src, t.dport, t.sport, t.proto)
  }

  // ----- Hash

  const MAX_CONN := 512

  function Mix(t: Tuple): bv32
  {
    t.src ^ t.dst ^ (t.sport as bv32) ^ (t.dport as bv32) ^ (t.proto as bv32)
  }

  function Scramble(x: bv32): bv32
  {
    (x * 0x9e37_79b1) % 512
  }

  function Bucket(t: Tuple): nat
  {
    Scramble(Mix(t)) as nat
  }

  lemma XorSwaps(a: bv32, b: bv32, c: bv32, d: bv32, e: bv32)
    ensures a ^ b ^ c ^ d ^ e == b ^ a ^ d ^ c ^ e
  {
  }

  /** Both directions of a connection fall into the same bucket. */
  lemma BucketSymmetric(t: Tuple)
    ensures Bucket(Reverse(t)) == Bucket(t)
  {
    hide Scramble;
    XorSwaps(t.src, t.dst, t.sport as bv32, t.dport as bv32, t.proto as bv32);
  }

  /** The multiplier is odd, so scrambling keeps apart what the low nine bits tell apart. */
  lemma ScrambleIff(x: bv32, y: bv32)
    ensures Scramble(x) == Scramble(y) <==> x % 512 == y % 512
  {
  }

  // ----- Connection states

  datatype ConnState =
    | SynSent | SynRecv | Established | FinWait | CloseWait | LastAck | TimeWait
    | UdpUnreplied | UdpReplied | Icmp | NoState

  const FIN: bv8 := 0x01
  const SYN: bv8 := 0x02
  const RST: bv8 := 0x04
  const ACK: bv8 := 0x10

  datatype Packet = Packet(flags: bv8, isReply: bool)

  function TcpStep(s: ConnState, flags: bv8, isReply: bool): ConnState
  {
    if !isReply then
      match s
      case SynSent => if flags == SYN | ACK then SynRecv else s
      case SynRecv => if flags == ACK then Established else s
      case Established => if flags == FIN then FinWait else if flags == RST then SynSent else s
      case FinWait => if flags == ACK then TimeWait else s
      case _ => s
    else
      match s
      case SynSent => if flags == SYN | ACK then SynRecv else if flags == ACK then Established else s
      case SynRecv => if flags == FIN then CloseWait else s
      case Established => if flags == FIN then CloseWait else s
      case CloseWait => if flags == FIN then LastAck else s
      case _ => s
  }

  function Phase(s: ConnState): nat
  {
    match s
    case SynSent => 0
    case SynRecv => 1
    case Established => 2
    case FinWait => 3
    case CloseWait => 3
    case LastAck => 4
    case TimeWait => 4
    case _ => 0
  }

  predicate IsReset(s: ConnState, p: Packet)
  {
    s == Established && !p.isReply && p.flags == RST
  }

  // the state is kept, or reset, or the connection advances
  predicate Advances(s: ConnState, p: Packet, s': ConnState)
  {
    s' == s || (if IsReset(s, p) then s' == SynSent else Phase(s') > Phase(s))
  }

  /** Every change of state but a reset advances the connection by at least one phase. */
  lemma StepAdvances(s: ConnState, p: Packet)
    ensures Advances(s, p, TcpStep(s, p.flags, p.isReply))
  {
  }

  class ConnEntry {
    const tuple: Tuple          // original direction
    var state: ConnState
    var reply: Tuple

    constructor (t: Tuple, st: ConnState)
      ensures tuple == t && state == st && reply == Tuple(t.dst, t.src, t.dport, t.sport, t.proto)
    {
      tuple, state, reply := t, st, Reverse(t);
    }

    // tcp_step; it never reports a drop
    method Step(flags: bv8, isReply: bool) returns (dropped: bool)
      modifies this`state
      ensures !dropped && state == TcpStep(old(state), flags, isReply)
      ensures Advances(old(state), Packet(flags, isReply), state)
    {
      dropped := false;
      if !isReply {
        match state
        case SynSent => if flags == SYN | ACK { state := SynRecv; }
        case SynRecv => if flags == ACK { state := Established; }
        case Established => if flags == FIN { state := FinWait; } else if flags == RST { state := SynSent; }
        case FinWait => if flags == ACK { state := TimeWait; }
        case _ =>
      } else {
        match state
        case SynSent => if flags == SYN | ACK { state := SynRecv; } else if flags == ACK { state := Established; }
        case SynRecv => if flags == FIN { state := CloseWait; }
        case Established => if flags == FIN { state := CloseWait; }
        case CloseWait => if flags == FIN { state := LastAck; }
        case _ =>
      }
    }
  }

  // ----- The table

  datatype Hit = Hit(entry: ConnEntry, isReply: bool)

  // the entry was created for this tuple
  predicate Exact(e: ConnEntry, t: Tuple)
  {
    && e.tuple.src == t.src && e.tuple.dst == t.dst
    && e.tuple.sport == t.sport && e.tuple.dport == t.dport && e.tuple.proto == t.proto
  }

  // the entry was created for the opposite direction
  predicate Reversed(e: ConnEntry, t: Tuple)
  {
    && e.tuple.src == t.dst && e.tuple.dst == t.src
    && e.tuple.sport == t.dport && e.tuple.dport == t.sport && e.tuple.proto == t.proto
  }

  /** A plain scan, newest entry first: the first match in either direction. */
  function Scan(es: seq<ConnEntry>, t: Tuple): Option<Hit>
  {
    if es == [] then None
    else if Exact(es[0], t) then Some(Hit(es[0], false))
    else if Reversed(es[0], t) then Some(Hit(es[0], true))
    else Scan(es[1..], t)
  }

  /** What the scan finds: nothing, or the first matching entry with the right direction. */
  lemma {:induction false} ScanMeaning(es: seq<ConnEntry>, t: Tuple)
    ensures Scan(es, t).None? <==> forall i :: 0 <= i < |es| ==> !Exact(es[i], t) && !Reversed(es[i], t)
    ensures Scan(es, t).Some? ==>
      exists i :: 0 <= i < |es| && es[i] == Scan(es, t).value.entry
        && (Exact(es[i], t) || Reversed(es[i], t))
        && (Scan(es, t).value.isReply <==> !Exact(es[i], t))
        && forall j :: 0 <= j < i ==> !Exact(es[j], t) && !Reversed(es[j], t)
  {
    if es != [] && !Exact(es[0], t) && !Reversed(es[0], t) {
      ScanMeaning(es[1..], t);
      if Scan(es, t).Some? {
        var i :| 0 <= i < |es[1..]| && es[1..][i] == Scan(es, t).value.entry
          && (Exact(es[1..][i], t) || Reversed(es[1..][i], t))
          && (Scan(es, t).value.isReply <==> !Exact(es[1..][i], t))
          && forall j :: 0 <= j < i ==> !Exact(es[1..][j], t) && !Reversed(es[1..][j], t);
        assert es[i + 1] == es[1..][i];
        forall j | 0 <= j < i + 1
          ensures !Exact(es[j], t) && !Reversed(es[j], t)
        {
          if j > 0 {
            assert es[j] == es[1..][j - 1];
          }
        }
      } else {
        assert forall i :: 0 < i < |es| ==> es[i] == es[1..][i - 1];
      }
    }
  }

  // the chain of one bucket: the entries that hash to it, newest first
  function Chain(es: seq<ConnEntry>, k: nat): seq<ConnEntry>
  {
    if es == [] then []
    else (if Bucket(es[0].tuple) == k then [es[0]] else []) + Chain(es[1..], k)
  }

  /** Looking only into the packet's bucket finds what a scan of everything finds. */
  lemma {:induction false} ChainIsEnough(es: seq<ConnEntry>, t: Tuple)
    ensures Scan(Chain(es, Bucket(t)), t) == Scan(es, t)
  {
    if es != [] {
      hide Bucket;
      BucketSymmetric(t);
      assert Reversed(es[0], t) ==> es[0].tuple == Reverse(t);
      ChainIsEnough(es[1..], t);
      var k := Bucket(t);
      if Bucket(es[0].tuple) == k {
        assert Chain(es, k)[0] == es[0] && Chain(es, k)[1..] == Chain(es[1..], k);
      } else {
        assert Chain(es, k) == Chain(es[1..], k);
      }
    }
  }

  function Length(chain: seq<ConnEntry>): nat { |chain| }

  class ConnTable {
    const buckets: array<seq<ConnEntry>>
    var total: int32
    ghost var entries: seq<ConnEntry>   // every entry, newest first

    ghost predicate Valid()
      reads this, buckets
    {
      && buckets.Length == MAX_CONN
      && (forall k :: 0 <= k < MAX_CONN ==> buckets[k] == Chain(entries, k))
      && |entries| == Sum(Length, buckets[..])
      && total == ToInt32(|entries|)
    }

    constructor ()
      ensures Valid() && entries == [] && fresh(buckets)
    {
      buckets := new seq<ConnEntry>[MAX_CONN](_ => []);
      total, entries := 0, [];
      new;
      assert forall k :: 0 <= k < MAX_CONN ==> buckets[k] == [];
      forall c | c in buckets[..]
        ensures Length(c) == 0
      {
      }
      SumConstant(Length, buckets[..], 0);
    }

    /** conn_lookup: the newest entry of the whole table that matches, and its direction. */
    method Lookup(t: Tuple) returns (hit: Option<Hit>)
      requires Valid()
      ensures hit == Scan(entries, t)
    {
      hide Bucket;
      var k := Bucket(t);
      BucketInRange(t);
      ChainIsEnough(entries, t);
      var chain := buckets[k];
      var i := 0;
      while i < |chain|
        invariant 0 <= i <= |chain|
        invariant Scan(chain, t) == Scan(chain[i..], t)
      {
        var e := chain[i];
        if Exact(e, t) {
          return Some(Hit(e, false));
        }
        if Reversed(e, t) {
          return Some(Hit(e, true));
        }
        i := i + 1;
      }
      return None;
    }

    /** conn_create: a new entry at the head of its chain. */
    method Create(t: Tuple, st: ConnState) returns (e: ConnEntry)
      requires Valid()
      modifies this, buckets
      ensures Valid() && fresh(e) && e.tuple == t && e.state == st
      ensures entries == [e] + old(entries) && (total == |entries| <==> |entries| <= INT_MAX)
    {
      hide Bucket, Sum, ToInt32;
      var k := Bucket(t);
      BucketInRange(t);
      e := new ConnEntry(t, st);
      ghost var chains := buckets[..];
      SumUpdate(Length, chains, k, [e] + buckets[k]);
      buckets[k] := [e] + buckets[k];
      assert buckets[..] == chains[k := [e] + chains[k]];
      WrapAgain(|entries|);
      FitsIff(|entries| + 1);
      total := ToInt32(total + 1);
      ChainCons(e, entries);
      entries := [e] + entries;
    }
  }

  lemma BucketInRange(t: Tuple)
    ensures Bucket(t) < MAX_CONN
  {
  }

  lemma ChainCons(e: ConnEntry, es: seq<ConnEntry>)
    ensures forall k: nat :: Chain([e] + es, k) == (if Bucket(e.tuple) == k then [e] else []) + Chain(es, k)
  {
    hide Bucket;
    assert ([e] + es)[1..] == es;
  }

  /** The latest connection wins: right after its creation, a lookup in either direction finds it. */
  lemma LookupAfterCreate(e: ConnEntry, es: seq<ConnEntry>)
    ensures Scan([e] + es, e.tuple) == Some(Hit(e, false))
    ensures var t := e.tuple;
      var reply := Tuple(t.dst, t.src, t.dport, t.sport, t.proto);
      Scan([e] + es, reply) == Some(Hit(e, t != reply))
  {
  }

  /** Creating a connection and then looking up a packet of either direction, on the table itself. */
  method Round(table: ConnTable, t: Tuple, st: ConnState) returns (e: ConnEntry, there: Option<Hit>, back: Option<Hit>)
    requires table.Valid()
    modifies table, table.buckets
    ensures table.Valid() && fresh(e) && there == Some(Hit(e, false))
    ensures back == Some(Hit(e, !(t.src == t.dst && t.sport == t.dport)))
  {
    e := table.Create(t, st);
    LookupAfterCreate(e, table.entries[1..]);
    assert table.entries == [e] + table.entries[1..];
    there := table.Lookup(t);
    back := table.Lookup(Tuple(t.dst, t.src, t.dport, t.sport, t.proto));
  }

  // ----- Tracked TCP runs

  function Track(s: ConnState, ps: seq<Packet>): ConnState
  {
    if ps == [] then s
    else TcpStep(Track(s, ps[..|ps| - 1]), ps[|ps| - 1].flags, ps[|ps| - 1].isReply)
  }

  function Changes(s: ConnState, ps: seq<Packet>): nat
  {
    if ps == [] then 0
    else Changes(s, ps[..|ps| - 1]) + if Track(s, ps) != Track(s, ps[..|ps| - 1]) then 1 else 0
  }

  function Resets(s: ConnState, ps: seq<Packet>): nat
  {
    if ps == [] then 0
    else Resets(s, ps[..|ps| - 1]) + if IsReset(Track(s, ps[..|ps| - 1]), ps[|ps| - 1]) then 1 else 0
  }

  /** A run with R resets changes state at most 3R + 4 times. */
  lemma {:induction false} ChangesBounded(s: ConnState, ps: seq<Packet>)
    ensures Changes(s, ps) + Phase(s) <= Phase(Track(s, ps)) + 3 * Resets(s, ps)
    ensures Changes(s, ps) <= 3 * Resets(s, ps) + 4
  {
    if ps != [] {
      ChangesBounded(s, ps[..|ps| - 1]);
      StepAdvances(Track(s, ps[..|ps| - 1]), ps[|ps| - 1]);
    }
  }

  /** The packets of a connection, one tcp_step each, with the state changes it reports counted. */
  method TrackPackets(e: ConnEntry, ps: seq<Packet>) returns (changes: nat)
    modifies e`state
    ensures e.state == Track(old(e.state), ps)
    ensures changes == Changes(old(e.state), ps) <= 3 * Resets(old(e.state), ps) + 4
  {
    changes := 0;
    for i := 0 to |ps|
      invariant e.state == Track(old(e.state), ps[..i]) && changes == Changes(old(e.state), ps[..i])
    {
      var before := e.state;
      var dropped := e.Step(ps[i].flags, ps[i].isReply);
      assert ps[..i + 1][..i] == ps[..i];
      if e.state != before {
        changes := changes + 1;
      }
    }
    assert ps[..|ps|] == ps;
    ChangesBounded(old(e.state), ps);
  }

  /** TIME_WAIT and LAST_ACK are final. */
  lemma {:induction false} FinalStates(s: ConnState, ps: seq<Packet>)
    requires s == TimeWait || s == LastAck
    ensures Track(s, ps) == s
  {
    if ps != [] {
      FinalStates(s, ps[..|ps| - 1]);
    }
  }

  // ----- Where a run leads

  ghost predicate Free(ps: seq<Packet>, p: Packet)
  {
    forall i :: 0 <= i < |ps| ==> ps[i] != p
  }

  lemma {:induction false} TrackConcat(s: ConnState, ps: seq<Packet>, qs: seq<Packet>)
    ensures Track(s, ps + qs) == Track(Track(s, ps), qs)
    decreases |qs|
  {
    if qs == [] {
      assert ps + qs == ps;
    } else {
      assert (ps + qs)[..|ps + qs| - 1] == ps + qs[..|qs| - 1];
      TrackConcat(s, ps, qs[..|qs| - 1]);
    }
  }

  lemma TrackOne(s: ConnState, ps: seq<Packet>, p: Packet)
    ensures Track(s, ps + [p]) == TcpStep(Track(s, ps), p.flags, p.isReply)
  {
    assert (ps + [p])[..|ps|] == ps;
  }

  // a state is kept while none of the packets that lead out of it arrive
  lemma {:induction false} Stays(s: ConnState, ps: seq<Packet>, out1: Packet, out2: Packet, out3: Packet)
    requires forall p: Packet :: p != out1 && p != out2 && p != out3 ==> TcpStep(s, p.flags, p.isReply) == s
    requires Free(ps, out1) && Free(ps, out2) && Free(ps, out3)
    ensures Track(s, ps) == s
  {
    if ps != [] {
      Stays(s, ps[..|ps| - 1], out1, out2, out3);
    }
  }

  /**
   * The handshake: from SYN_SENT a SYN|ACK in either direction and later an
   * original ACK establish the connection, unless a reply FIN comes between.
   */
  lemma HandshakeEstablishes(reply: bool, between: seq<Packet>)
    requires Free(between, Packet(ACK, false)) && Free(between, Packet(FIN, true))
    ensures Track(SynSent, [Packet(SYN | ACK, reply)] + between + [Packet(ACK, false)]) == Established
  {
    var start := [Packet(SYN | ACK, reply)];
    TrackOne(SynSent, [], start[0]);
    assert [] + start == start;
    Stays(SynRecv, between, Packet(ACK, false), Packet(FIN, true), Packet(FIN, true));
    TrackConcat(SynSent, start, between);
    TrackOne(SynSent, start + between, Packet(ACK, false));
  }

  /** A reply ACK in SYN_SENT establishes at once; an original one, or a SYN, does nothing there. */
  lemma EarlyAck()
    ensures Track(SynSent, [Packet(ACK, true)]) == Established
    ensures Track(SynSent, [Packet(ACK, false)]) == Track(SynSent, [Packet(SYN, false)]) == SynSent
  {
    TrackOne(SynSent, [], Packet(ACK, true));
    TrackOne(SynSent, [], Packet(ACK, false));
    TrackOne(SynSent, [], Packet(SYN, false));
    assert forall p: Packet :: [] + [p] == [p];
  }

  /** An established connection is left exactly at the first FIN of either direction or original RST. */
  lemma EstablishedUntil(ps: seq<Packet>, p: Packet)
    requires Free(ps, Packet(FIN, false)) && Free(ps, Packet(RST, false)) && Free(ps, Packet(FIN, true))
    ensures Track(Established, ps) == Established
    ensures Track(Established, ps + [p]) ==
      if p == Packet(FIN, false) then FinWait
      else if p == Packet(RST, false) then SynSent
      else if p == Packet(FIN, true) then CloseWait
      else Established
  {
    Stays(Established, ps, Packet(FIN, false), Packet(RST, false), Packet(FIN, true));
    TrackOne(Established, ps, p);
  }

  /** The original side closes: its FIN and its next ACK lead to TIME_WAIT, which is final. */
  lemma ActiveClose(between: seq<Packet>, after: seq<Packet>)
    requires Free(between, Packet(ACK, false))
    ensures Track(Established, [Packet(FIN, false)] + between + [Packet(ACK, false)] + after) == TimeWait
  {
    var start := [Packet(FIN, false)];
    TrackOne(Established, [], start[0]);
    assert [] + start == start;
    Stays(FinWait, between, Packet(ACK, false), Packet(ACK, false), Packet(ACK, false));
    TrackConcat(Established, start, between);
    TrackOne(Established, start + between, Packet(ACK, false));
    TrackConcat(Established, start + between + [Packet(ACK, false)], after);
    FinalStates(TimeWait, after);
  }

  /** The other side closes: its FIN and its next FIN lead to LAST_ACK, which is final. */
  lemma PassiveClose(s: ConnState, between: seq<Packet>, after: seq<Packet>)
    requires (s == Established || s == SynRecv) && Free(between, Packet(FIN, true))
    ensures Track(s, [Packet(FIN, true)] + between) == CloseWait
    ensures Track(s, [Packet(FIN, true)] + between + [Packet(FIN, true)] + after) == LastAck
  {
    var fin := Packet(FIN, true);
    TrackOne(s, [], fin);
    assert [] + [fin] == [fin];
    Stays(CloseWait, between, fin, fin, fin);
    TrackConcat(s, [fin], between);
    TrackOne(s, [fin] + between, fin);
    TrackConcat(s, [fin] + between + [fin], after);
    FinalStates(LastAck, after);
  }

  function Hello(): seq<Packet>
  {
    [Packet(0x12, true), Packet(0x10, false)]
  }

  lemma HelloEstablishes(data: seq<Packet>)
    requires forall i :: 0 <= i < |data| ==> data[i].flags == 0x10
    ensures Track(SynSent, Hello() + data) == Established
  {
    HandshakeEstablishes(true, []);
    assert [Packet(SYN | ACK, true)] + [] + [Packet(ACK, false)] == Hello();
    EstablishedUntil(data, Packet(RST, false));
    hide Track;
    TrackConcat(SynSent, Hello(), data);
  }

  /** A whole connection in the flag values of the wire: handshake, data, a reset or a close of either side. */
  lemma WholeConnection(data: seq<Packet>)
    requires forall i :: 0 <= i < |data| ==> data[i].flags == 0x10
    ensures Track(SynSent, Hello() + data + [Packet(0x04, false)]) == SynSent
    ensures Track(SynSent, Hello() + data + [Packet(0x01, false), Packet(0x10, false)]) == TimeWait
    ensures Track(SynSent, Hello() + data + [Packet(0x01, true), Packet(0x01, true)]) == LastAck
  {
    hide Track, Hello;
    var ps := Hello() + data;
    HelloEstablishes(data);
    TrackOne(SynSent, ps, Packet(0x04, false));
    ActiveClose([], []);
    assert [Packet(FIN, false)] + [] + [Packet(ACK, false)] + [] == [Packet(0x01, false), Packet(0x10, false)];
    TrackConcat(SynSent, ps, [Packet(0x01, false), Packet(0x10, false)]);
    PassiveClose(Established, [], []);
    assert [Packet(FIN, true)] + [] + [Packet(FIN, true)] + [] == [Packet(0x01, true), Packet(0x01, true)];
    TrackConcat(SynSent, ps, [Packet(0x01, true), Packet(0x01, true)]);
  }

  // ----- Where a state comes from

  // packet i has these flags and direction and arrives in state `s`
  ghost predicate PacketAt(from: ConnState, ps: seq<Packet>, i: int, p: Packet, s: ConnState)
  {
    0 <= i < |ps| && ps[i] == p && Track(from, ps[..i]) == s
  }

  // the run is in state `s` from packet i on
  ghost predicate SinceThen(from: ConnState, ps: seq<Packet>, i: int, s: ConnState)
  {
    0 <= i < |ps| && forall j :: i < j <= |ps| ==> Track(from, ps[..j]) == s
  }

  lemma Prefixes(ps: seq<Packet>, i: int)
    requires 0 <= i < |ps|
    ensures ps[..|ps| - 1][..i] == ps[..i]
  {
  }

  // the packet that brought the run into its present state
  lemma {:induction false} Entered(from: ConnState, ps: seq<Packet>) returns (i: nat)
    requires Track(from, ps) != from
    ensures SinceThen(from, ps, i, Track(from, ps)) && Track(from, ps[..i]) != Track(from, ps)
  {
    var n := |ps| - 1;
    var s := Track(from, ps);
    if Track(from, ps[..n]) == s {
      i := Entered(from, ps[..n]);
      Prefixes(ps, i);
      forall j | i < j <= |ps|
        ensures Track(from, ps[..j]) == s
      {
        if j <= n {
          assert ps[..n][..j] == ps[..j];
        } else {
          assert ps[..j] == ps;
        }
      }
    } else {
      i := n;
      assert ps[..n + 1] == ps;
    }
  }

  lemma EnteringPacket(from: ConnState, ps: seq<Packet>, i: nat)
    requires SinceThen(from, ps, i, Track(from, ps))
    ensures Track(from, ps) == TcpStep(Track(from, ps[..i]), ps[i].flags, ps[i].isReply)
  {
    assert ps[..i + 1][..i] == ps[..i];
    assert Track(from, ps[..i + 1]) == Track(from, ps);
  }

  /** SYN_RECV comes only from a SYN|ACK in SYN_SENT. */
  lemma SynRecvOrigin(ps: seq<Packet>) returns (i: nat)
    requires Track(SynSent, ps) == SynRecv
    ensures SinceThen(SynSent, ps, i, SynRecv)
    ensures PacketAt(SynSent, ps, i, Packet(SYN | ACK, false), SynSent) || PacketAt(SynSent, ps, i, Packet(SYN | ACK, true), SynSent)
  {
    hide Track;
    i := Entered(SynSent, ps);
    EnteringPacket(SynSent, ps, i);
  }

  /** ESTABLISHED comes only from an original ACK in SYN_RECV or a reply ACK in SYN_SENT. */
  lemma EstablishedOrigin(ps: seq<Packet>) returns (i: nat)
    requires Track(SynSent, ps) == Established
    ensures SinceThen(SynSent, ps, i, Established)
    ensures PacketAt(SynSent, ps, i, Packet(ACK, false), SynRecv) || PacketAt(SynSent, ps, i, Packet(ACK, true), SynSent)
  {
    hide Track;
    i := Entered(SynSent, ps);
    EnteringPacket(SynSent, ps, i);
  }

  /** FIN_WAIT comes only from an original FIN on an established connection. */
  lemma FinWaitOrigin(ps: seq<Packet>) returns (i: nat)
    requires Track(SynSent, ps) == FinWait
    ensures SinceThen(SynSent, ps, i, FinWait) && PacketAt(SynSent, ps, i, Packet(FIN, false), Established)
  {
    hide Track;
    i := Entered(SynSent, ps);
    EnteringPacket(SynSent, ps, i);
  }

  /** CLOSE_WAIT comes only from a reply FIN in SYN_RECV or ESTABLISHED. */
  lemma CloseWaitOrigin(ps: seq<Packet>) returns (i: nat)
    requires Track(SynSent, ps) == CloseWait
    ensures SinceThen(SynSent, ps, i, CloseWait)
    ensures PacketAt(SynSent, ps, i, Packet(FIN, true), SynRecv) || PacketAt(SynSent, ps, i, Packet(FIN, true), Established)
  {
    hide Track;
    i := Entered(SynSent, ps);
    EnteringPacket(SynSent, ps, i);
  }

  /** LAST_ACK comes only from a reply FIN in CLOSE_WAIT, and so from two reply FINs. */
  lemma LastAckOrigin(ps: seq<Packet>) returns (i: nat, j: nat)
    requires Track(SynSent, ps) == LastAck
    ensures i < j && SinceThen(SynSent, ps, j, LastAck) && PacketAt(SynSent, ps, j, Packet(FIN, true), CloseWait)
    ensures PacketAt(SynSent, ps, i, Packet(FIN, true), SynRecv) || PacketAt(SynSent, ps, i, Packet(FIN, true), Established)
  {
    hide Track;
    j := Entered(SynSent, ps);
    EnteringPacket(SynSent, ps, j);
    i := CloseWaitOrigin(ps[..j]);
    assert ps[..j][..i] == ps[..i];
  }

  /**
   * TIME_WAIT comes only from an original FIN on an established connection,
   * followed later by an original ACK.
   */
  lemma TimeWaitOrigin(ps: seq<Packet>) returns (i: nat, j: nat)
    requires Track(SynSent, ps) == TimeWait
    ensures i < j && SinceThen(SynSent, ps, j, TimeWait) && PacketAt(SynSent, ps, j, Packet(ACK, false), FinWait)
    ensures PacketAt(SynSent, ps, i, Packet(FIN, false), Established)
  {
    hide Track;
    j := Entered(SynSent, ps);
    EnteringPacket(SynSent, ps, j);
    i := FinWaitOrigin(ps[..j]);
    assert ps[..j][..i] == ps[..i];
  }
}
