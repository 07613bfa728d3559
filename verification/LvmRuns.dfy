// Every sequence of volume-manager operations of demos/lvm/lvm.c: adding
// physical volumes, creating and extending logical volumes, and reserving the
// copy-on-write areas of snapshots.
module LvmRuns {
  import opened Options
  import opened Sums
  import opened Extents
  import opened CInts

  const MAX_PVS := 16

  type pos = x: int | 1 <= x witness 1

  // the contiguous copy-on-write area of a snapshot
  datatype Area = Area(pv: nat, start: nat, count: pos)

  datatype Vg = Vg(
    pvs: seq<Pv>,
    lvs: seq<seq<Extent>>,     // LE maps
    cows: seq<Area>,
    leaked: seq<Extent>)       // taken by extensions that failed half-way

  datatype Op =
    | AddPv(peCount: nat)
    | Create(leCount: nat)
    | Extend(lv: nat, additional: nat)
    | Snapshot(origin: nat, cowCount: pos)

  const EMPTY := Vg([], [], [], [])

  function Apply(g: Vg, op: Op): Vg
  {
    match op
    case AddPv(n) =>
      if |g.pvs| >= MAX_PVS then g else g.(pvs := g.pvs + [Pv(n, {})])
    case Create(n) =>
      var t := TakeMany(g.pvs, n);
      g.(pvs := t.pvs, lvs := g.lvs + [t.extents + Zeros(n - |t.extents|)])
    case Extend(l, n) =>
      if l >= |g.lvs| then g else
      var t := TakeMany(g.pvs, n);
      if |t.extents| == n then g.(pvs := t.pvs, lvs := g.lvs[l := g.lvs[l] + t.extents])
      else g.(pvs := t.pvs, leaked := g.leaked + t.extents)
    case Snapshot(l, n) =>
      if l >= |g.lvs| then g else
      match VgFind(g.pvs, n)
      case None => g
      case Some(e) => g.(pvs := Take(g.pvs, e, n), cows := g.cows + [Area(e.pv, e.pe, n)])
  }

  // entries of the zero-filled map that lv_create never reached
  function Zeros(n: nat): seq<Extent>
  {
    seq(n, _ => Extent(0, 0))
  }

  function Run(ops: seq<Op>): Vg
  {
    if ops == [] then EMPTY else Apply(Run(ops[..|ops| - 1]), ops[|ops| - 1])
  }

  /** A creation fits when the group has that many free extents; nothing else can go wrong. */
  predicate Fits(g: Vg, op: Op)
  {
    op.Create? ==> op.leCount <= FreeTotal(g.pvs)
  }

  ghost predicate AllFit(ops: seq<Op>)
  {
    ops == [] || (AllFit(ops[..|ops| - 1]) && Fits(Run(ops[..|ops| - 1]), ops[|ops| - 1]))
  }

  // ----- Who holds an extent

  datatype Holder = InLv(lv: nat, le: nat) | InCow(cow: nat, pe: nat) | Lost(k: nat)

  function At(g: Vg, h: Holder): Option<Extent>
  {
    match h
    case InLv(l, i) => if l < |g.lvs| && i < |g.lvs[l]| then Some(g.lvs[l][i]) else None
    case InCow(c, x) =>
      if c < |g.cows| && g.cows[c].start <= x < g.cows[c].start + g.cows[c].count
      then Some(Extent(g.cows[c].pv, x)) else None
    case Lost(k) => if k < |g.leaked| then Some(g.leaked[k]) else None
  }

  /** Every allocated extent is held somewhere. */
  ghost predicate Covered(g: Vg)
  {
    forall e :: InUse(g.pvs, e) ==> exists h :: At(g, h) == Some(e)
  }

  /** Every held extent is allocated, and no two holders share one. */
  ghost predicate Exclusive(g: Vg)
  {
    && (forall h :: At(g, h).Some? ==> InUse(g.pvs, At(g, h).value))
    && (forall h, h' :: At(g, h).Some? && At(g, h) == At(g, h') ==> h == h')
  }

  // `g'` has allocated the extents `es` on top of `g`, and the k-th of them is
  // what the new holder `hs[k]` has; old holders are unchanged.
  ghost predicate Grows(g: Vg, g': Vg, es: seq<Extent>, hs: seq<Holder>)
  {
    && Allocates(g.pvs, g'.pvs, es)
    && |hs| == |es|
    && (forall h :: At(g, h).Some? ==> At(g', h) == At(g, h))
    && (forall k :: 0 <= k < |hs| ==> At(g, hs[k]).None? && At(g', hs[k]) == Some(es[k]))
    && (forall h :: At(g', h).Some? ==> At(g, h).Some? || h in hs)
  }

  lemma GrowthKeepsCover(g: Vg, g': Vg, es: seq<Extent>, hs: seq<Holder>)
    requires Grows(g, g', es, hs) && Covered(g)
    ensures Covered(g')
  {
    forall e | InUse(g'.pvs, e)
      ensures exists h :: At(g', h) == Some(e)
    {
      if InUse(g.pvs, e) {
        var h :| At(g, h) == Some(e);
        assert At(g', h) == Some(e);
      } else {
        var k :| 0 <= k < |es| && es[k] == e;
        assert At(g', hs[k]) == Some(e);
      }
    }
  }

  lemma GrowthKeepsExclusive(g: Vg, g': Vg, es: seq<Extent>, hs: seq<Holder>)
    requires Grows(g, g', es, hs) && Exclusive(g)
    ensures Exclusive(g')
  {
    forall h | At(g', h).Some?
      ensures InUse(g'.pvs, At(g', h).value)
      ensures At(g, h).Some? <==> InUse(g.pvs, At(g', h).value)
    {
      if At(g, h).None? {
        var k :| 0 <= k < |hs| && hs[k] == h;
        assert es[k] in es;
      }
    }
    forall h, h' | At(g', h).Some? && At(g', h) == At(g', h')
      ensures h == h'
    {
      if At(g, h).None? {
        var k :| 0 <= k < |hs| && hs[k] == h;
        var k' :| 0 <= k' < |hs| && hs[k'] == h';
        assert es[k] == es[k'];
        assert Distinct(es);
      }
    }
  }

  lemma GrowthKeepsSharing(g: Vg, g': Vg, es: seq<Extent>, hs: seq<Holder>)
    requires Grows(g, g', es, hs) && Exclusive(g')
    ensures Exclusive(g)
  {
    forall h | At(g, h).Some?
      ensures InUse(g.pvs, At(g, h).value)
    {
      var e := At(g, h).value;
      assert At(g', h) == Some(e);
      forall k | 0 <= k < |es|
        ensures es[k] != e
      {
        assert At(g', hs[k]) == Some(es[k]);
      }
    }
  }

  /** So growth neither repairs nor breaks exclusiveness. */
  lemma GrowthExclusive(g: Vg, g': Vg, es: seq<Extent>, hs: seq<Holder>)
    requires Grows(g, g', es, hs)
    ensures Exclusive(g') <==> Exclusive(g)
  {
    if Exclusive(g) {
      GrowthKeepsExclusive(g, g', es, hs);
    }
    if Exclusive(g') {
      GrowthKeepsSharing(g, g', es, hs);
    }
  }

  // ----- The operations are growth

  function LvHolders(l: nat, from: nat, n: nat): seq<Holder>
  {
    seq(n, k requires 0 <= k => InLv(l, from + k))
  }

  lemma AddPvGrows(g: Vg, n: nat)
    ensures Grows(g, Apply(g, AddPv(n)), [], [])
  {
    var g' := Apply(g, AddPv(n));
    forall x
      ensures InUse(g'.pvs, x) <==> InUse(g.pvs, x)
    {
    }
    assert forall h :: At(g', h) == At(g, h);
  }

  lemma CreateGrows(g: Vg, n: nat) returns (es: seq<Extent>, hs: seq<Holder>)
    requires VgOk(g.pvs) && Fits(g, Create(n))
    ensures Grows(g, Apply(g, Create(n)), es, hs)
  {
    hide TakeMany, InUse, VgOk, Allocates;
    es := TakeMany(g.pvs, n).extents;
    hs := LvHolders(|g.lvs|, 0, n);
    TakeManyCounts(g.pvs, n);
    TakeManyFresh(g.pvs, n);
    var g' := Apply(g, Create(n));
    assert g'.lvs[|g.lvs|] == es;
    forall h | At(g', h).Some? && At(g, h).None?
      ensures h in hs
    {
      assert h == hs[h.le];
    }
  }

  // new map entries of volume `l` hold what was allocated
  lemma EntriesGrow(g: Vg, pvs: seq<Pv>, es: seq<Extent>, l: nat)
    requires l < |g.lvs| && Allocates(g.pvs, pvs, es)
    ensures Grows(g, g.(pvs := pvs, lvs := g.lvs[l := g.lvs[l] + es]), es, LvHolders(l, |g.lvs[l]|, |es|))
  {
    hide Allocates;
    var g' := g.(pvs := pvs, lvs := g.lvs[l := g.lvs[l] + es]);
    var hs := LvHolders(l, |g.lvs[l]|, |es|);
    forall h | At(g', h).Some? && At(g, h).None?
      ensures h in hs
    {
      assert h == hs[h.le - |g.lvs[l]|];
    }
  }

  function LostHolders(from: nat, n: nat): seq<Holder>
  {
    seq(n, k requires 0 <= k => Lost(from + k))
  }

  // nobody's entries hold what was allocated
  lemma LossGrows(g: Vg, pvs: seq<Pv>, es: seq<Extent>)
    requires Allocates(g.pvs, pvs, es)
    ensures Grows(g, g.(pvs := pvs, leaked := g.leaked + es), es, LostHolders(|g.leaked|, |es|))
  {
    hide Allocates;
    var g' := g.(pvs := pvs, leaked := g.leaked + es);
    var hs := LostHolders(|g.leaked|, |es|);
    forall h | At(g', h).Some? && At(g, h).None?
      ensures h in hs
    {
      assert h == hs[h.k - |g.leaked|];
    }
  }

  lemma ExtendGrows(g: Vg, l: nat, n: nat) returns (es: seq<Extent>, hs: seq<Holder>)
    requires l < |g.lvs| && |TakeMany(g.pvs, n).extents| == n
    ensures Grows(g, Apply(g, Extend(l, n)), es, hs)
  {
    hide TakeMany, Allocates, Grows;
    es := TakeMany(g.pvs, n).extents;
    hs := LvHolders(l, |g.lvs[l]|, n);
    TakeManyFresh(g.pvs, n);
    EntriesGrow(g, TakeMany(g.pvs, n).pvs, es, l);
  }

  lemma FailedExtendGrows(g: Vg, l: nat, n: nat) returns (es: seq<Extent>, hs: seq<Holder>)
    requires l < |g.lvs| && |TakeMany(g.pvs, n).extents| != n
    ensures Grows(g, Apply(g, Extend(l, n)), es, hs)
  {
    hide TakeMany, Allocates, Grows;
    es := TakeMany(g.pvs, n).extents;
    hs := LostHolders(|g.leaked|, |es|);
    TakeManyFresh(g.pvs, n);
    LossGrows(g, TakeMany(g.pvs, n).pvs, es);
  }

  function AreaExtents(pv: nat, start: nat, n: nat): seq<Extent>
  {
    seq(n, k requires 0 <= k => Extent(pv, start + k))
  }

  lemma SnapshotGrows(g: Vg, l: nat, n: pos) returns (es: seq<Extent>, hs: seq<Holder>)
    requires l < |g.lvs| && VgFind(g.pvs, n).Some?
    ensures Grows(g, Apply(g, Snapshot(l, n)), es, hs)
  {
    var e := VgFind(g.pvs, n).value;
    var c := |g.cows|;
    es := AreaExtents(e.pv, e.pe, n);
    hs := seq(n, k requires 0 <= k => InCow(c, e.pe + k));
    var g' := Apply(g, Snapshot(l, n));
    assert FreeRun(g.pvs[e.pv], e.pe, n);
    hide VgFind, InUse, Take;
    forall x
      ensures InUse(g'.pvs, x) <==> InUse(g.pvs, x) || x in es
    {
      InUseAfterTake(g.pvs, e, n, x);
      if x.pv == e.pv && e.pe <= x.pe < e.pe + n {
        assert es[x.pe - e.pe] == x;
      }
    }
    forall h | At(g', h).Some? && At(g, h).None?
      ensures h in hs
    {
      assert h == hs[h.pe - e.pe];
    }
  }

  lemma StepGrows(g: Vg, op: Op) returns (es: seq<Extent>, hs: seq<Holder>)
    requires VgOk(g.pvs) && Fits(g, op)
    ensures Grows(g, Apply(g, op), es, hs)
  {
    es, hs := [], [];
    match op
    case AddPv(n) => AddPvGrows(g, n);
    case Create(n) => es, hs := CreateGrows(g, n);
    case Extend(l, n) =>
      if l < |g.lvs| {
        if |TakeMany(g.pvs, n).extents| == n {
          es, hs := ExtendGrows(g, l, n);
        } else {
          es, hs := FailedExtendGrows(g, l, n);
        }
      }
    case Snapshot(l, n) =>
      if l < |g.lvs| && VgFind(g.pvs, n).Some? {
        es, hs := SnapshotGrows(g, l, n);
      }
  }

  // A creation that does not fit fills the group and leaves map entries at
  // PE 0 of volume 0, which is somebody else's or does not exist.
  lemma ShortCreateCovers(g: Vg, n: nat)
    requires VgOk(g.pvs) && Covered(g)
    ensures Covered(Apply(g, Create(n)))
  {
    hide TakeMany, InUse, VgOk, FreeTotal;
    var t := TakeMany(g.pvs, n);
    TakeManyFresh(g.pvs, n);
    var g' := Apply(g, Create(n));
    forall e | InUse(g'.pvs, e)
      ensures exists h :: At(g', h) == Some(e)
    {
      if InUse(g.pvs, e) {
        var h :| At(g, h) == Some(e);
        assert At(g', h) == Some(e);
      } else {
        var k :| 0 <= k < |t.extents| && t.extents[k] == e;
        assert At(g', InLv(|g.lvs|, k)) == Some(e);
      }
    }
  }

  lemma ShortCreateShares(g: Vg, n: nat)
    requires VgOk(g.pvs) && Covered(g) && !Fits(g, Create(n))
    ensures !Exclusive(Apply(g, Create(n)))
  {
    hide TakeMany, InUse, VgOk, FreeTotal;
    var t := TakeMany(g.pvs, n);
    TakeManyCounts(g.pvs, n);
    TakeManyFresh(g.pvs, n);
    var g' := Apply(g, Create(n));
    var m := |t.extents|;
    var zero := InLv(|g.lvs|, m);
    assert At(g', zero) == Some(Extent(0, 0));
    if InUse(g'.pvs, Extent(0, 0)) {
      var h;
      if InUse(g.pvs, Extent(0, 0)) {
        h :| At(g, h) == Some(Extent(0, 0));
      } else {
        var k :| 0 <= k < m && t.extents[k] == Extent(0, 0);
        h := InLv(|g.lvs|, k);
      }
      assert At(g', h) == At(g', zero) && h != zero;
    }
  }

  lemma StepVgOk(g: Vg, op: Op)
    requires VgOk(g.pvs)
    ensures VgOk(Apply(g, op).pvs)
  {
    match op
    case AddPv(n) =>
    case Create(n) => TakeManyCounts(g.pvs, n);
    case Extend(l, n) => TakeManyCounts(g.pvs, n);
    case Snapshot(l, n) =>
      if VgFind(g.pvs, n).Some? {
        TakeCounts(g.pvs, VgFind(g.pvs, n).value, n);
      }
  }

  /**
   * After any sequence of operations every allocated extent has a holder; and
   * holders are pairwise disjoint and in range if and only if every logical
   * volume was created with enough free extents. Failed extensions and failed
   * snapshots do no harm.
   */
  lemma {:induction false} RunHolders(ops: seq<Op>)
    ensures VgOk(Run(ops).pvs) && Covered(Run(ops))
    ensures Exclusive(Run(ops)) <==> AllFit(ops)
  {
    if ops != [] {
      var before := ops[..|ops| - 1];
      var op := ops[|ops| - 1];
      RunHolders(before);
      var g := Run(before);
      StepVgOk(g, op);
      if Fits(g, op) {
        var es, hs := StepGrows(g, op);
        GrowthKeepsCover(g, Apply(g, op), es, hs);
        GrowthExclusive(g, Apply(g, op), es, hs);
      } else {
        ShortCreateCovers(g, op.leCount);
        ShortCreateShares(g, op.leCount);
      }
    }
  }

  // ----- Conservation

  function PeCount(p: Pv): nat { p.peCount }

  function LeCount(m: seq<Extent>): nat { |m| }

  function CowCount(a: Area): nat { a.count }

  function Held(g: Vg): nat
  {
    Sum(LeCount, g.lvs) + Sum(CowCount, g.cows) + |g.leaked|
  }

  lemma StepConserves(g: Vg, op: Op)
    requires VgOk(g.pvs) && Fits(g, op)
    ensures var g' := Apply(g, op);
      FreeTotal(g'.pvs) + Held(g') + Sum(PeCount, g.pvs) == FreeTotal(g.pvs) + Held(g) + Sum(PeCount, g'.pvs)
  {
    var g' := Apply(g, op);
    match op
    case AddPv(n) =>
      SumAppend(Free, g.pvs, Pv(n, {}));
      SumAppend(PeCount, g.pvs, Pv(n, {}));
    case Create(n) =>
      TakeManyCounts(g.pvs, n);
      SumAppend(LeCount, g.lvs, g'.lvs[|g.lvs|]);
      SamePeCounts(g.pvs, g'.pvs);
    case Extend(l, n) =>
      TakeManyCounts(g.pvs, n);
      SamePeCounts(g.pvs, g'.pvs);
      if l < |g.lvs| {
        SumUpdate(LeCount, g.lvs, l, g'.lvs[l]);
      }
    case Snapshot(l, n) =>
      SamePeCounts(g.pvs, g'.pvs);
      if l < |g.lvs| && VgFind(g.pvs, n).Some? {
        TakeCounts(g.pvs, VgFind(g.pvs, n).value, n);
        SumAppend(CowCount, g.cows, g'.cows[|g.cows|]);
      }
  }

  lemma {:induction false} SamePeCounts(a: seq<Pv>, b: seq<Pv>)
    requires |a| == |b| && forall i :: 0 <= i < |a| ==> a[i].peCount == b[i].peCount
    ensures Sum(PeCount, a) == Sum(PeCount, b)
  {
    if a != [] {
      SamePeCounts(a[..|a| - 1], b[..|b| - 1]);
    }
  }

  /** Free extents, logical extents, copy-on-write areas and leaks add up to the whole group. */
  lemma {:induction false} Conservation(ops: seq<Op>)
    requires AllFit(ops)
    ensures FreeTotal(Run(ops).pvs) + Held(Run(ops)) == Sum(PeCount, Run(ops).pvs)
  {
    if ops != [] {
      Conservation(ops[..|ops| - 1]);
      RunHolders(ops[..|ops| - 1]);
      StepConserves(Run(ops[..|ops| - 1]), ops[|ops| - 1]);
    }
  }

  // ----- Sector translation

  const PE_SECTORS := 2048

  // the conversion to uint64_t
  function ToUint64(x: int): nat
  {
    x % 0x1_0000_0000_0000_0000
  }

  datatype Physical = Physical(pv: nat, sector: nat)

  function Address(pe: nat, offset: nat): nat
  {
    ToUint64(ToInt32(pe * PE_SECTORS) + offset)
  }

  /** lv_map_sector with its 32-bit index and 32-bit product; None where the index is negative. */
  function MapSector(leMap: seq<Extent>, sector: nat): Option<Physical>
  {
    var le := ToInt32(sector / PE_SECTORS);
    var idx := if le >= |leMap| then |leMap| - 1 else le;
    if idx < 0 then None
    else Some(Physical(leMap[idx].pv, Address(leMap[idx].pe, sector % PE_SECTORS)))
  }

  /** Within the volume and on small disks: the address the layout promises. */
  lemma MapSectorExact(leMap: seq<Extent>, sector: nat)
    requires sector < |leMap| * PE_SECTORS && |leMap| < 0x8000_0000
    ensures var e := leMap[sector / PE_SECTORS];
      && MapSector(leMap, sector).Some?
      && MapSector(leMap, sector).value.pv == e.pv
      && (e.pe < 0x8000_0000 ==>
            (MapSector(leMap, sector).value.sector == e.pe * PE_SECTORS + sector % PE_SECTORS <==> e.pe < 0x10_0000))
  {
  }

  lemma SectorInside(g: Vg, l: nat, x: nat)
    requires VgOk(g.pvs) && Exclusive(g)
    requires l < |g.lvs| && x < |g.lvs[l]| * PE_SECTORS && |g.lvs[l]| < 0x8000_0000
    requires forall i :: 0 <= i < |g.pvs| ==> g.pvs[i].peCount <= 0x10_0000
    ensures var e := g.lvs[l][x / PE_SECTORS];
      && Exists(g.pvs, e)
      && MapSector(g.lvs[l], x) == Some(Physical(e.pv, e.pe * PE_SECTORS + x % PE_SECTORS))
  {
    MapSectorExact(g.lvs[l], x);
    assert At(g, InLv(l, x / PE_SECTORS)) == Some(g.lvs[l][x / PE_SECTORS]);
  }

  // extents after which the 32-bit product repeats
  const WRAP := 0x20_0000

  lemma ProductRepeats(pe: nat)
    ensures ToInt32(pe * PE_SECTORS) == ((pe + 0x10_0000) % WRAP - 0x10_0000) * PE_SECTORS
  {
  }

  lemma SmallUint64(u: int, v: int)
    requires -0x8000_0000 <= u < 0x8000_0000 && -0x8000_0000 <= v < 0x8000_0000
    ensures ToUint64(u) == ToUint64(v) <==> u == v
  {
  }

  lemma SameRemainder(p: nat, q: nat)
    ensures (p + 0x10_0000) % WRAP == (q + 0x10_0000) % WRAP <==> p % WRAP == q % WRAP
  {
  }

  lemma AddressesAgreeIff(p: nat, x: nat, q: nat, y: nat)
    requires x < PE_SECTORS && y < PE_SECTORS
    ensures Address(p, x) == Address(q, y) <==> p % WRAP == q % WRAP && x == y
  {
    hide ToInt32, ToUint64;
    ProductRepeats(p);
    ProductRepeats(q);
    SameRemainder(p, q);
    SmallUint64(ToInt32(p * PE_SECTORS) + x, ToInt32(q * PE_SECTORS) + y);
  }

  lemma InRangeAddress(m: seq<Extent>, x: nat)
    requires x < |m| * PE_SECTORS && |m| < 0x8000_0000
    ensures MapSector(m, x) == Some(Physical(m[x / PE_SECTORS].pv, Address(m[x / PE_SECTORS].pe, x % PE_SECTORS)))
  {
    hide Address;
  }

  // the translation cannot tell these extents apart
  predicate SamePlace(e: Extent, f: Extent)
  {
    e.pv == f.pv && e.pe % WRAP == f.pe % WRAP
  }

  /** Two sectors collide exactly when their extents are a multiple of 2^21 apart on one disk. */
  lemma SectorsCollideIff(m: seq<Extent>, x: nat, m': seq<Extent>, y: nat)
    requires x < |m| * PE_SECTORS && |m| < 0x8000_0000
    requires y < |m'| * PE_SECTORS && |m'| < 0x8000_0000
    ensures MapSector(m, x) == MapSector(m', y) <==>
      SamePlace(m[x / PE_SECTORS], m'[y / PE_SECTORS]) && x % PE_SECTORS == y % PE_SECTORS
  {
    hide MapSector, Address;
    InRangeAddress(m, x);
    InRangeAddress(m', y);
    AddressesAgreeIff(m[x / PE_SECTORS].pe, x % PE_SECTORS, m'[y / PE_SECTORS].pe, y % PE_SECTORS);
  }

  predicate InVolume(g: Vg, l: int, x: int)
  {
    0 <= l < |g.lvs| && 0 <= x < |g.lvs[l]| * PE_SECTORS
  }

  /** Distinct sectors of the logical volumes have distinct physical addresses. */
  ghost predicate SectorsApart(g: Vg)
  {
    forall l, x, m, y :: InVolume(g, l, x) && InVolume(g, m, y) ==>
      MapSector(g.lvs[l], x) == MapSector(g.lvs[m], y) ==> l == m && x == y
  }

  predicate Entry(g: Vg, l: int, i: int)
  {
    0 <= l < |g.lvs| && 0 <= i < |g.lvs[l]|
  }

  ghost predicate EntriesApart(g: Vg)
  {
    forall l, i, m, j :: Entry(g, l, i) && Entry(g, m, j) ==>
      SamePlace(g.lvs[l][i], g.lvs[m][j]) ==> l == m && i == j
  }

  ghost predicate Addressable(g: Vg)
  {
    forall l :: 0 <= l < |g.lvs| ==> |g.lvs[l]| < 0x8000_0000
  }

  /** The exact condition: no two map entries are a multiple of 2^21 extents apart on one disk. */
  lemma SectorsApartIff(g: Vg)
    requires Addressable(g)
    ensures SectorsApart(g) <==> EntriesApart(g)
  {
    hide MapSector, SamePlace;
    if SectorsApart(g) {
      forall l, i, m, j | Entry(g, l, i) && Entry(g, m, j) && SamePlace(g.lvs[l][i], g.lvs[m][j])
        ensures l == m && i == j
      {
        assert InVolume(g, l, i * PE_SECTORS) && InVolume(g, m, j * PE_SECTORS);
        SectorsCollideIff(g.lvs[l], i * PE_SECTORS, g.lvs[m], j * PE_SECTORS);
      }
    }
    if EntriesApart(g) {
      forall l, x, m, y | InVolume(g, l, x) && InVolume(g, m, y) && MapSector(g.lvs[l], x) == MapSector(g.lvs[m], y)
        ensures l == m && x == y
      {
        SectorsCollideIff(g.lvs[l], x, g.lvs[m], y);
        assert Entry(g, l, x / PE_SECTORS) && Entry(g, m, y / PE_SECTORS);
      }
    }
  }

  ghost predicate DisksUpTo(g: Vg, n: nat)
  {
    forall i :: 0 <= i < |g.pvs| ==> g.pvs[i].peCount <= n
  }

  lemma SmallDisksApart(g: Vg)
    requires VgOk(g.pvs) && Exclusive(g) && DisksUpTo(g, WRAP)
    ensures EntriesApart(g)
  {
    forall l, i, m, j | Entry(g, l, i) && Entry(g, m, j) && SamePlace(g.lvs[l][i], g.lvs[m][j])
      ensures l == m && i == j
    {
      assert At(g, InLv(l, i)) == Some(g.lvs[l][i]);
      assert At(g, InLv(m, j)) == Some(g.lvs[m][j]);
      assert g.lvs[l][i] == g.lvs[m][j];
      assert InLv(l, i) == InLv(m, j);
    }
  }

  lemma {:induction false} GroupSize(ops: seq<Op>)
    ensures |Run(ops).pvs| <= MAX_PVS
  {
    if ops != [] {
      GroupSize(ops[..|ops| - 1]);
    }
  }

  lemma FittingIsAddressable(ops: seq<Op>)
    requires AllFit(ops) && DisksUpTo(Run(ops), WRAP)
    ensures Addressable(Run(ops))
  {
    hide Run, AllFit;
    var g := Run(ops);
    Conservation(ops);
    GroupSize(ops);
    SumUpper(PeCount, g.pvs, WRAP);
    forall l | 0 <= l < |g.lvs|
      ensures |g.lvs[l]| < 0x8000_0000
    {
      SumAtLeast(LeCount, g.lvs, l);
    }
  }

  predicate InsideDisk(g: Vg, p: Option<Physical>)
  {
    p.Some? && p.value.pv < |g.pvs| && p.value.sector < g.pvs[p.value.pv].peCount * PE_SECTORS
  }

  /**
   * Address translation keeps volumes apart: in a group whose creations all
   * fitted and whose disks have at most 2^21 extents, distinct in-range sectors
   * of any logical volumes have distinct physical addresses. With at most 2^20
   * extents each address is the sector of an existing extent.
   */
  lemma TranslationInjective(ops: seq<Op>)
    requires AllFit(ops) && DisksUpTo(Run(ops), WRAP)
    ensures SectorsApart(Run(ops))
    ensures DisksUpTo(Run(ops), 0x10_0000) ==> forall l, x :: InVolume(Run(ops), l, x) ==>
      InsideDisk(Run(ops), MapSector(Run(ops).lvs[l], x))
  {
    hide Run, AllFit, MapSector;
    var g := Run(ops);
    RunHolders(ops);
    FittingIsAddressable(ops);
    SmallDisksApart(g);
    SectorsApartIff(g);
    if DisksUpTo(g, 0x10_0000) {
      forall l, x | InVolume(g, l, x)
        ensures InsideDisk(g, MapSector(g.lvs[l], x))
      {
        SectorInside(g, l, x);
      }
    }
  }

  // the first `k` extents are taken, and no others
  ghost predicate FirstTaken(p: Pv, k: nat)
  {
    forall x: nat :: x in p.used <==> x < k
  }

  // such a volume serves the next request from there
  lemma NextFit(p: Pv, k: nat, count: nat)
    requires FirstTaken(p, k) && count > 0 && k + count <= p.peCount
    ensures Find(p, count) == Some(k)
    ensures FirstTaken(Mark(p, k, count), k + count)
  {
    hide FirstFit, Range;
    assert FreeRun(p, k, count);
    forall s | 0 <= s < k
      ensures !FreeRun(p, s, count)
    {
      assert s in p.used;
    }
  }

  // ... and so does a group with that one volume
  lemma NextFitInVg(p: Pv, k: nat, count: nat)
    requires FirstTaken(p, k) && count > 0 && k + count <= p.peCount
    ensures VgFind([p], count) == Some(Extent(0, k)) && Take([p], Extent(0, k), count) == [Mark(p, k, count)]
  {
    hide Find, Mark;
    NextFit(p, k, count);
  }

  lemma NextExtent(p: Pv, k: nat)
    requires FirstTaken(p, k) && k < p.peCount
    ensures TakeMany([p], 1) == Taken([Mark(p, k, 1)], [Extent(0, k)])
  {
    hide VgFind, Take, Mark;
    NextFitInVg(p, k, 1);
    assert TakeMany([Mark(p, k, 1)], 0) == Taken([Mark(p, k, 1)], []);
  }

  // one volume, a copy-on-write area between its two extents
  function CollidingRun(n: nat): seq<Op>
  {
    [AddPv(n), Create(1), Snapshot(0, WRAP - 1), Extend(0, 1)]
  }

  lemma MarkCount(p: Pv, start: nat, count: nat)
    ensures Mark(p, start, count).peCount == p.peCount
  {
  }

  lemma OneVolume(p: Pv)
    ensures FreeTotal([p]) == Free(p)
  {
    SumAppend(Free, [], p);
    assert [] + [p] == [p];
  }

  lemma CollidingSteps(n: nat) returns (p1: Pv, p2: Pv, p3: Pv)
    requires n > WRAP
    ensures p3.peCount == n
    ensures var g1 := Vg([Pv(n, {})], [], [], []);
      var g2 := Vg([p1], [[Extent(0, 0)]], [], []);
      var g3 := Vg([p2], [[Extent(0, 0)]], [Area(0, 1, WRAP - 1)], []);
      && Apply(EMPTY, AddPv(n)) == g1
      && Apply(g1, Create(1)) == g2 && Fits(g1, Create(1))
      && Apply(g2, Snapshot(0, WRAP - 1)) == g3
      && Apply(g3, Extend(0, 1)) == Vg([p3], [[Extent(0, 0), Extent(0, WRAP)]], g3.cows, [])
  {
    hide TakeMany, VgFind, Take, Mark;
    var p := Pv(n, {});
    NextFit(p, 0, 1);
    NextExtent(p, 0);
    p1 := Mark(p, 0, 1);
    assert p1.peCount == n by { MarkCount(p, 0, 1); }
    NextFit(p1, 1, WRAP - 1);
    NextFitInVg(p1, 1, WRAP - 1);
    p2 := Mark(p1, 1, WRAP - 1);
    assert p2.peCount == n by { MarkCount(p1, 1, WRAP - 1); }
    NextExtent(p2, WRAP);
    p3 := Mark(p2, WRAP, 1);
    MarkCount(p2, WRAP, 1);
    assert FreeTotal([p]) == n by { OneVolume(p); }
    assert [Extent(0, 0)] + Zeros(0) == [Extent(0, 0)];
    assert [Extent(0, 0)] + [Extent(0, WRAP)] == [Extent(0, 0), Extent(0, WRAP)];
  }

  /** A disk with more than 2^21 extents is enough: this run fits and two sectors of its one volume collide. */
  lemma BigDiskCollides(n: nat)
    requires n > WRAP
    ensures var g := Run(CollidingRun(n));
      && AllFit(CollidingRun(n)) && DisksUpTo(g, n) && g.lvs == [[Extent(0, 0), Extent(0, WRAP)]]
      && MapSector(g.lvs[0], 0) == MapSector(g.lvs[0], PE_SECTORS) == Some(Physical(0, 0))
      && !SectorsApart(g)
  {
    hide Apply, MapSector;
    var ops := CollidingRun(n);
    var p1, p2, p3 := CollidingSteps(n);
    assert ops[..3][..2] == ops[..2] && ops[..2][..1] == ops[..1] && ops[..1][..0] == [];
    assert Run(ops[..1]) == Vg([Pv(n, {})], [], [], []);
    assert Run(ops[..2]) == Vg([p1], [[Extent(0, 0)]], [], []);
    assert Run(ops[..3]) == Vg([p2], [[Extent(0, 0)]], [Area(0, 1, WRAP - 1)], []);
    assert AllFit(ops[..1]);
    assert AllFit(ops[..2]);
    assert AllFit(ops[..3]);
    var g := Run(ops);
    assert g == Apply(Run(ops[..3]), ops[3]);
    SectorsCollideIff(g.lvs[0], 0, g.lvs[0], PE_SECTORS);
    InRangeAddress(g.lvs[0], 0);
    assert InVolume(g, 0, 0) && InVolume(g, 0, PE_SECTORS);
  }

  // every fitting run on disks of at most `n` extents keeps sectors apart
  ghost predicate ApartUpTo(n: nat)
  {
    forall ops :: AllFit(ops) && DisksUpTo(Run(ops), n) ==> SectorsApart(Run(ops))
  }

  /** The bound of 2^21 extents is exact. */
  lemma ApartUpToIff(n: nat)
    ensures ApartUpTo(n) <==> n <= WRAP
  {
    if n <= WRAP {
      forall ops | AllFit(ops) && DisksUpTo(Run(ops), n)
        ensures SectorsApart(Run(ops))
      {
        TranslationInjective(ops);
      }
    } else {
      BigDiskCollides(n);
      assert AllFit(CollidingRun(n));
    }
  }

  /** Beyond the last sector the index is clamped: such a sector aliases one of the last extent. */
  lemma PastTheEndAliases(leMap: seq<Extent>, sector: nat)
    requires leMap != [] && |leMap| * PE_SECTORS <= sector < 0x8000_0000 * PE_SECTORS
    ensures MapSector(leMap, sector) == MapSector(leMap, (|leMap| - 1) * PE_SECTORS + sector % PE_SECTORS)
  {
  }
}
