// Routing lookup of demos/route/route.c: the route with the most mask bits among
// those that match (the longest-match rule, section 5.2.4.3 of RFC 1812), over
// any table.
module Route {
  import opened Options
  import opened Masks

  // the metric is carried but never consulted by the lookup
  datatype Route = Route(dst: bv32, mask: bv32, gw: bv32, interface: bv32, metric: int)

  predicate Matches(r: Route, ip: bv32)
  {
    Agree(ip, r.dst, r.mask)
  }

  /** prefix_len: shifting the ones out, one at a time. */
  method PrefixLen(mask: bv32) returns (len: nat)
    ensures len == Ones(mask)
  {
    len := 0;
    var m := mask;
    while m != 0
      invariant len + Ones(m) == Ones(mask)
      decreases m
    {
      len := len + if m & 1 == 1 then 1 else 0;
      m := m >> 1;
    }
  }

  // ----- Lookup

  // -1, or the first index with the most mask bits among the matching routes
  predicate IsBest(table: seq<Route>, ip: bv32, b: int)
  {
    if b < 0 then
      b == -1 && forall j :: 0 <= j < |table| ==> !Matches(table[j], ip)
    else
      && b < |table| && Matches(table[b], ip)
      && forall j :: 0 <= j < |table| && Matches(table[j], ip) ==>
           Ones(table[j].mask) <= Ones(table[b].mask) && (j < b ==> Ones(table[j].mask) < Ones(table[b].mask))
  }

  lemma BestUnique(table: seq<Route>, ip: bv32, b: int, c: int)
    requires IsBest(table, ip, b) && IsBest(table, ip, c)
    ensures b == c
  {
  }

  // the better of the answer so far and the next route of the table
  function Better(table: seq<Route>, ip: bv32, b: int, n: nat): int
    requires b < n < |table|
  {
    if Matches(table[n], ip) && (b < 0 || Ones(table[n].mask) > Ones(table[b].mask)) then n else b
  }

  lemma OneMore(table: seq<Route>, ip: bv32, b: int, n: nat)
    requires n < |table| && b < n && IsBest(table[..n], ip, b)
    ensures IsBest(table[..n + 1], ip, Better(table, ip, b, n))
  {
    hide Ones, Matches;
    assert table[..n + 1] == table[..n] + [table[n]];
  }

  // the answer as a function, for use in statements
  function Best(table: seq<Route>, ip: bv32): (b: int)
    ensures IsBest(table, ip, b)
  {
    if table == [] then -1
    else
      var n := |table| - 1;
      var b := Best(table[..n], ip);
      OneMore(table, ip, b, n);
      assert table[..n + 1] == table;
      Better(table, ip, b, n)
  }

  /** lookup_route: the scan over the whole table. */
  method LookupRoute(table: seq<Route>, ip: bv32) returns (b: int, matchLen: int)
    ensures IsBest(table, ip, b) && b == Best(table, ip)
    ensures matchLen == if b < 0 then -1 else Ones(table[b].mask)
  {
    b, matchLen := -1, -1;
    for i := 0 to |table|
      invariant b < i && IsBest(table[..i], ip, b)
      invariant matchLen == if b < 0 then -1 else Ones(table[b].mask)
    {
      OneMore(table, ip, b, i);
      if Matches(table[i], ip) {
        var ml := PrefixLen(table[i].mask);
        if ml > matchLen {
          b, matchLen := i, ml;
        }
      }
    }
    assert table[..|table|] == table;
    BestUnique(table, ip, b, Best(table, ip));
  }

  function BestRoute(table: seq<Route>, ip: bv32): Option<Route>
  {
    var b := Best(table, ip);
    if b < 0 then None else Some(table[b])
  }

  // ----- What the answer means

  ghost predicate WellFormed(table: seq<Route>)
  {
    && (forall i :: 0 <= i < |table| ==> Contiguous(table[i].mask))
    && forall i, j :: 0 <= i < j < |table| ==> !SamePrefix(table[i], table[j])
  }

  predicate SamePrefix(r: Route, s: Route)
  {
    r.mask == s.mask && Agree(r.dst, s.dst, r.mask)
  }

  // every address that `r` covers is covered by `s`
  ghost predicate Within(r: Route, s: Route)
  {
    forall x: bv32 :: Matches(r, x) ==> Matches(s, x)
  }

  // `r` matches, and its destinations are within those of every matching route
  ghost predicate MostSpecific(table: seq<Route>, ip: bv32, r: Route)
  {
    Matches(r, ip) && forall j :: 0 <= j < |table| && Matches(table[j], ip) ==> Within(r, table[j])
  }

  /** Two matching routes: the one with the larger mask lies within the other. */
  lemma LargerMaskWithin(r: Route, s: Route, ip: bv32)
    requires Matches(r, ip) && Matches(s, ip) && Subset(s.mask, r.mask)
    ensures Within(r, s)
  {
    hide Subset, Agree;
    forall x: bv32 | Matches(r, x)
      ensures Matches(s, x)
    {
      AgreeSymmetric(ip, r.dst, r.mask);
      AgreeTransitive(x, r.dst, ip, r.mask);
      AgreeOnSubset(x, ip, s.mask, r.mask);
      AgreeTransitive(x, ip, s.dst, s.mask);
    }
  }

  /** Conversely a route that lies within another has the larger mask. */
  lemma WithinLargerMask(r: Route, s: Route, ip: bv32)
    requires Matches(r, ip) && Matches(s, ip) && Within(r, s)
    ensures Subset(s.mask, r.mask)
  {
    hide Subset, Agree;
    var x := ip ^ !r.mask;
    FlipOutsideAgrees(ip, r.mask);
    AgreeTransitive(x, ip, r.dst, r.mask);
    assert Matches(s, x);
    AgreeSymmetric(ip, s.dst, s.mask);
    AgreeTransitive(x, s.dst, ip, s.mask);
    FlipOutsideTells(ip, r.mask, s.mask);
  }

  // routes that match one address and have equal masks are the same prefix
  lemma EqualMasksSamePrefix(r: Route, s: Route, ip: bv32)
    requires Matches(r, ip) && Matches(s, ip) && r.mask == s.mask
    ensures SamePrefix(r, s)
  {
    hide Agree;
    AgreeSymmetric(ip, r.dst, r.mask);
    AgreeTransitive(r.dst, ip, s.dst, r.mask);
  }

  /**
   * Longest-prefix match: over contiguous masks and distinct prefixes the
   * answer is the most specific matching route, the only one, and there is none
   * exactly when nothing matches.
   */
  lemma LongestPrefixMatch(table: seq<Route>, ip: bv32)
    requires WellFormed(table)
    ensures var b := Best(table, ip);
      && (b < 0 <==> forall j :: 0 <= j < |table| ==> !Matches(table[j], ip))
      && (b >= 0 ==> MostSpecific(table, ip, table[b]))
      && (b >= 0 ==> forall j :: 0 <= j < |table| && MostSpecific(table, ip, table[j]) ==> j == b)
  {
    hide Agree, Subset, Ones, Contiguous;
    var b := Best(table, ip);
    if b >= 0 {
      forall j | 0 <= j < |table| && Matches(table[j], ip)
        ensures Within(table[b], table[j])
      {
        LongerContains(table[j].mask, table[b].mask);
        LargerMaskWithin(table[b], table[j], ip);
      }
      forall j | 0 <= j < |table| && MostSpecific(table, ip, table[j])
        ensures j == b
      {
        WithinLargerMask(table[j], table[b], ip);
        OnesMonotone(table[b].mask, table[j].mask);
        EqualMasksSamePrefix(table[b], table[j], ip);
        EqualMasksSamePrefix(table[j], table[b], ip);
      }
    }
  }

  // ----- Order of the table

  // route `j` matches with as many mask bits as any match
  ghost predicate Longest(table: seq<Route>, ip: bv32, j: int)
  {
    && 0 <= j < |table| && Matches(table[j], ip)
    && forall i :: 0 <= i < |table| && Matches(table[i], ip) ==> Ones(table[i].mask) <= Ones(table[j].mask)
  }

  // entries that tie for the longest match are equal
  ghost predicate TiesEqual(table: seq<Route>, ip: bv32)
  {
    forall i, j :: Longest(table, ip, i) && Longest(table, ip, j) ==> table[i] == table[j]
  }

  lemma BestIsLongest(table: seq<Route>, ip: bv32)
    ensures Best(table, ip) >= 0 ==> Longest(table, ip, Best(table, ip))
    ensures forall j :: Longest(table, ip, j) ==> Best(table, ip) >= 0
  {
    hide Ones, Agree, Best;
  }

  lemma InBoth(a: seq<Route>, b: seq<Route>, r: Route)
    requires multiset(a) == multiset(b)
    ensures r in a <==> r in b
  {
    assert r in a <==> r in multiset(a);
    assert r in b <==> r in multiset(b);
  }

  lemma TiesEqualIsEnough(table: seq<Route>, other: seq<Route>, ip: bv32)
    requires multiset(table) == multiset(other) && TiesEqual(table, ip)
    ensures BestRoute(other, ip) == BestRoute(table, ip)
  {
    hide Agree, Ones, Best;
    BestIsLongest(table, ip);
    var b, c := Best(table, ip), Best(other, ip);
    if c >= 0 {
      InBoth(table, other, other[c]);
      var j :| 0 <= j < |table| && table[j] == other[c];
      assert Matches(table[j], ip);
      InBoth(table, other, table[b]);
      var k :| 0 <= k < |other| && other[k] == table[b];
      assert Matches(other[k], ip);
      assert Longest(table, ip, j);
    } else if b >= 0 {
      InBoth(table, other, table[b]);
    }
  }

  function ToFront(table: seq<Route>, j: nat): seq<Route>
    requires j < |table|
  {
    [table[j]] + table[..j] + table[j + 1..]
  }

  lemma ToFrontPermutes(table: seq<Route>, j: nat)
    requires j < |table|
    ensures multiset(ToFront(table, j)) == multiset(table)
  {
    assert table == table[..j] + [table[j]] + table[j + 1..];
  }

  lemma ToFrontElement(table: seq<Route>, j: nat, i: nat)
    requires j < |table| && i < |table|
    ensures |ToFront(table, j)| == |table| && ToFront(table, j)[0] == table[j] && ToFront(table, j)[i] in table
  {
    var k := if i == 0 then j else if i <= j then i - 1 else i;
    assert ToFront(table, j)[i] == table[k];
  }

  lemma ToFrontWins(table: seq<Route>, j: nat, ip: bv32)
    requires Longest(table, ip, j)
    ensures BestRoute(ToFront(table, j), ip) == Some(table[j])
  {
    hide Agree, Ones, Best, ToFront;
    var t := ToFront(table, j);
    ToFrontElement(table, j, 0);
    forall i | 0 <= i < |t| && Matches(t[i], ip)
      ensures Ones(t[i].mask) <= Ones(t[0].mask)
    {
      ToFrontElement(table, j, i);
    }
    assert IsBest(t, ip, 0);
    BestUnique(t, ip, Best(t, ip), 0);
  }

  /** The answer is the same for every order of the table if and only if ties are between equal entries. */
  lemma OrderIndependentIff(table: seq<Route>, ip: bv32)
    ensures TiesEqual(table, ip) <==>
      forall other :: multiset(other) == multiset(table) ==> BestRoute(other, ip) == BestRoute(table, ip)
  {
    if TiesEqual(table, ip) {
      forall other | multiset(other) == multiset(table)
        ensures BestRoute(other, ip) == BestRoute(table, ip)
      {
        TiesEqualIsEnough(table, other, ip);
      }
    } else {
      var i, j :| Longest(table, ip, i) && Longest(table, ip, j) && table[i] != table[j];
      ToFrontPermutes(table, i);
      ToFrontPermutes(table, j);
      ToFrontWins(table, i, ip);
      ToFrontWins(table, j, ip);
    }
  }

  /** In particular a well-formed table may be listed in any order. */
  lemma WellFormedOrderIndependent(table: seq<Route>, other: seq<Route>, ip: bv32)
    requires WellFormed(table) && multiset(other) == multiset(table)
    ensures BestRoute(other, ip) == BestRoute(table, ip)
  {
    hide Agree, Subset, Ones, Contiguous, Best;
    forall j, b | Longest(table, ip, j) && Longest(table, ip, b)
      ensures table[j] == table[b]
    {
      LongerContains(table[j].mask, table[b].mask);
      LongerContains(table[b].mask, table[j].mask);
      SubsetAntisymmetric(table[j].mask, table[b].mask);
      EqualMasksSamePrefix(table[j], table[b], ip);
      EqualMasksSamePrefix(table[b], table[j], ip);
    }
    TiesEqualIsEnough(table, other, ip);
  }

  // ----- Routing decision

  datatype Action = Deliver | Forward | Drop | Local

  datatype Decision = Decision(action: Action, route: Option<Route>, nextHop: bv32)

  function RoutePacket(table: seq<Route>, dst: bv32, isLocal: bool): Decision
  {
    var r := BestRoute(table, dst);
    if !isLocal then
      match r
      case None => Decision(Drop, None, 0)
      case Some(e) =>
        if e.gw == 0 then Decision(Deliver, r, dst) else Decision(Forward, r, e.gw)
    else
      match r
      case None => Decision(Local, None, 0)
      case Some(e) => Decision(Local, r, if e.gw != 0 then e.gw else dst)
  }

  /** A transit packet is dropped exactly when no route matches; a default route rules that out. */
  lemma DropIff(table: seq<Route>, dst: bv32, isLocal: bool)
    ensures RoutePacket(table, dst, isLocal).action == Drop <==>
      !isLocal && forall j :: 0 <= j < |table| ==> !Matches(table[j], dst)
    ensures (exists j :: 0 <= j < |table| && table[j].mask == 0) ==>
      RoutePacket(table, dst, isLocal).action != Drop && RoutePacket(table, dst, isLocal).route.Some?
  {
    if j :| 0 <= j < |table| && table[j].mask == 0 {
      assert Matches(table[j], dst);
    }
  }

  /**
   * Over contiguous masks and distinct prefixes the decision does not depend on
   * the order of the table, and a routed packet goes to the gateway of the most
   * specific route, or straight to its destination if that route has none.
   */
  lemma NextHopOnRoute(table: seq<Route>, other: seq<Route>, dst: bv32, isLocal: bool)
    requires WellFormed(table) && multiset(other) == multiset(table)
    ensures var d := RoutePacket(other, dst, isLocal);
      && d == RoutePacket(table, dst, isLocal)
      && (d.route.None? ==> d.nextHop == 0 && d.action == (if isLocal then Local else Drop))
      && (d.route.Some? ==>
            && d.route.value in table && MostSpecific(table, dst, d.route.value)
            && d.nextHop == (if d.route.value.gw == 0 then dst else d.route.value.gw)
            && d.action == (if isLocal then Local else if d.route.value.gw == 0 then Deliver else Forward))
  {
    hide Agree, Best, WellFormed, MostSpecific;
    WellFormedOrderIndependent(table, other, dst);
    LongestPrefixMatch(table, dst);
  }
}
