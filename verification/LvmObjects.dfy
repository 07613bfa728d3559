// The objects of demos/lvm/lvm.c under whole sequences of operations: what the
// value model says about every run holds of the bitmaps, counters and LE maps.
module LvmObjects {
  import opened Options
  import opened Sums
  import opened Extents
  import opened BitWords
  import opened CInts
  import opened LvmRuns
  import opened Lvm

  // the group and its logical volumes hold the state `v`
  ghost predicate Represents(g: VolumeGroup, lvs: seq<LogicalVolume>, v: Vg)
    reads g, g.pvs, Bitmaps(g.pvs), lvs
  {
    g.Valid() && Views(g.pvs) == v.pvs && MapsAre(lvs, v.lvs)
  }

  ghost predicate MapsAre(lvs: seq<LogicalVolume>, maps: seq<seq<Extent>>)
    reads lvs
  {
    && |lvs| == |maps|
    && (forall i, j :: 0 <= i < j < |lvs| ==> lvs[i] != lvs[j])
    && forall i :: 0 <= i < |lvs| ==> lvs[i].Valid() && lvs[i].leCount >= 0 && lvs[i].Map() == maps[i]
  }

  // all a snapshot keeps of its copy-on-write area; the disk it lies on is lost
  ghost predicate Records(snap: LogicalVolume, a: Area)
    reads snap
  {
    snap.cowPeStart == a.start && snap.cowPeCount == a.count
  }

  ghost predicate Recorded(before: seq<Area>, snap: LogicalVolume?, after: seq<Area>)
    reads snap
  {
    if snap == null then after == before
    else |after| == |before| + 1 && after[..|before|] == before && Records(snap, after[|before|])
  }

  ghost predicate AreasAre(snaps: seq<LogicalVolume>, areas: seq<Area>)
    reads snaps
  {
    |snaps| == |areas| && forall i :: 0 <= i < |snaps| ==> Records(snaps[i], areas[i])
  }

  ghost predicate Separate(snaps: seq<LogicalVolume>, lvs: seq<LogicalVolume>)
  {
    forall i :: 0 <= i < |snaps| ==> snaps[i] !in lvs
  }

  // the operation stays within the ints of the source: there is a bitmap of that
  // size, the total of the group does not wrap, and neither does a map's length
  predicate IntSized(v: Vg, op: Op)
  {
    match op
    case AddPv(n) => n <= INT_MAX - 63 && (|v.pvs| < MAX_PVS ==> Sum(PeCount, v.pvs) + n <= INT_MAX)
    case Create(n) => n <= INT_MAX
    case Extend(l, n) => n <= INT_MAX && (l < |v.lvs| ==> |v.lvs[l]| + n <= INT_MAX)
    case Snapshot(_, n) => n <= INT_MAX
  }

  ghost predicate Executable(ops: seq<Op>)
  {
    ops == [] || (Executable(ops[..|ops| - 1]) && IntSized(Run(ops[..|ops| - 1]), ops[|ops| - 1]))
  }

  lemma WholeExtents(n: nat)
    requires n <= INT_MAX
    ensures ToInt32(n * PE_SECTORS / PE_SECTORS) == n
  {
  }

  method NewVolume(n: nat) returns (p: PhysicalVolume)
    requires n <= INT_MAX - 63
    ensures fresh(p) && fresh(p.bitmap) && p.Valid() && p.peCount == n && p.View() == Pv(n, {})
  {
    hide Bits, ToInt32;
    WholeExtents(n);
    p := new PhysicalVolume(n * PE_SECTORS);
  }

  method AddVolume(g: VolumeGroup, n: nat) returns (ok: bool)
    requires g.Valid() && n <= INT_MAX - 63 && (|g.pvs| < MAX_PVS ==> g.totalPe + n <= INT_MAX)
    modifies g
    ensures g.Valid() && (ok <==> |old(g.pvs)| < MAX_PVS)
    ensures Views(g.pvs) == old(Views(g.pvs)) + if ok then [Pv(n, {})] else []
    ensures forall i :: 0 <= i < |g.pvs| ==> g.pvs[i] in old(g.pvs) || fresh(g.pvs[i])
    ensures fresh(Bitmaps(g.pvs) - old(Bitmaps(g.pvs)))
  {
    hide Bits, PhysicalVolume.View, PhysicalVolume.Valid, PhysicalVolume.Shaped, Views, AllShaped, FreeTotal, Sum, Apart;
    ghost var pvs := g.pvs;
    ghost var views := Views(pvs);
    var p := NewVolume(n);
    assert Views(pvs) == views;
    p.ViewOk();
    ViewsAppend(pvs, p);
    ok := g.AddPv(p);
  }

  method DoAddPv(g: VolumeGroup, lvs: seq<LogicalVolume>, n: nat, ghost v: Vg)
    requires Represents(g, lvs, v) && IntSized(v, AddPv(n))
    modifies g
    ensures Represents(g, lvs, Apply(v, AddPv(n)))
    ensures forall i :: 0 <= i < |g.pvs| ==> g.pvs[i] in old(g.pvs) || fresh(g.pvs[i])
    ensures fresh(Bitmaps(g.pvs) - old(Bitmaps(g.pvs)))
  {
    hide Bits, PhysicalVolume.View, VolumeGroup.Valid, Views, MapsAre, AllShaped, Bitmaps;
    g.Facts();
    var ok := AddVolume(g, n);
    g.Facts();
    assert Views(g.pvs) == Apply(v, AddPv(n)).pvs;
  }

  method DoCreate(g: VolumeGroup, lvs: seq<LogicalVolume>, n: nat, ghost v: Vg) returns (lvs': seq<LogicalVolume>)
    requires Represents(g, lvs, v) && IntSized(v, Create(n))
    modifies g, g.pvs, Bitmaps(g.pvs)
    ensures g.pvs == old(g.pvs) && Represents(g, lvs', Apply(v, Create(n)))
    ensures forall l :: l in lvs' ==> l in lvs || fresh(l)
  {
    hide Bits, PhysicalVolume.View, VolumeGroup.Valid, Views, AllShaped, Bitmaps, TakeMany, FreeTotal, VgOk, LogicalVolume.Map;
    g.Facts();
    var l := CreateLv(g, n);
    g.Facts();
    lvs' := lvs + [l];
  }

  method DoExtend(g: VolumeGroup, lvs: seq<LogicalVolume>, i: nat, n: nat, ghost v: Vg)
    requires Represents(g, lvs, v) && IntSized(v, Extend(i, n))
    modifies g, g.pvs, Bitmaps(g.pvs), lvs
    ensures g.pvs == old(g.pvs) && Represents(g, lvs, Apply(v, Extend(i, n)))
  {
    hide Bits, PhysicalVolume.View, VolumeGroup.Valid, Views, AllShaped, Bitmaps, TakeMany, FreeTotal, VgOk, LogicalVolume.Map;
    g.Facts();
    TakeManyCounts(v.pvs, n);
    if i < |lvs| {
      lvs[i].MapLength();
      var ok := ExtendLv(lvs[i], g, n);
      g.Facts();
    }
  }

  method DoSnapshot(g: VolumeGroup, lvs: seq<LogicalVolume>, i: nat, n: pos, ghost v: Vg)
    returns (snap: LogicalVolume?)
    requires Represents(g, lvs, v) && IntSized(v, Snapshot(i, n))
    modifies g, g.pvs, Bitmaps(g.pvs)
    ensures g.pvs == old(g.pvs) && Represents(g, lvs, Apply(v, Snapshot(i, n)))
    ensures snap != null ==> fresh(snap)
    ensures Recorded(v.cows, snap, Apply(v, Snapshot(i, n)).cows)
  {
    hide Bits, PhysicalVolume.View, VolumeGroup.Valid, Views, AllShaped, Bitmaps, VgFind, Take, LogicalVolume.Map;
    g.Facts();
    if i < |lvs| {
      snap := CreateSnapshot(g, lvs[i], n);
      g.Facts();
    } else {
      snap := null;
    }
  }

  ghost predicate NoSharing(lvs: seq<LogicalVolume>)
    reads lvs
  {
    forall i, a, j, b :: HasEntry(lvs, i, a) && HasEntry(lvs, j, b) ==>
      lvs[i].Map()[a] == lvs[j].Map()[b] ==> i == j && a == b
  }

  ghost predicate HasEntry(lvs: seq<LogicalVolume>, i: int, a: int)
    reads lvs
  {
    0 <= i < |lvs| && lvs[i].Valid() && 0 <= a < |lvs[i].Map()|
  }

  lemma ExclusiveMaps(g: VolumeGroup, lvs: seq<LogicalVolume>, v: Vg)
    requires Represents(g, lvs, v) && Exclusive(v)
    ensures NoSharing(lvs)
  {
    hide VolumeGroup.Valid, Views, InUse;
    forall i, a, j, b | HasEntry(lvs, i, a) && HasEntry(lvs, j, b) && lvs[i].Map()[a] == lvs[j].Map()[b]
      ensures i == j && a == b
    {
      assert At(v, InLv(i, a)) == Some(lvs[i].Map()[a]);
      assert At(v, InLv(j, b)) == Some(lvs[j].Map()[b]);
      assert InLv(i, a) == InLv(j, b);
    }
  }

  lemma CowsKept(v: Vg, op: Op)
    ensures !op.Snapshot? ==> Apply(v, op).cows == v.cows
  {
  }

  lemma EmptyGroup(g: VolumeGroup)
    requires g.Valid() && g.pvs == []
    ensures Represents(g, [], EMPTY) && AreasAre([], EMPTY.cows)
  {
  }

  lemma {:induction false} ExecutablePrefix(ops: seq<Op>, k: nat)
    requires Executable(ops) && k <= |ops|
    ensures Executable(ops[..k])
    decreases |ops|
  {
    if k < |ops| {
      ExecutablePrefix(ops[..|ops| - 1], k);
      assert ops[..|ops| - 1][..k] == ops[..k];
    } else {
      assert ops[..k] == ops;
    }
  }

  method Do(g: VolumeGroup, lvs: seq<LogicalVolume>, snaps: seq<LogicalVolume>, op: Op, ghost v: Vg)
    returns (lvs': seq<LogicalVolume>, snaps': seq<LogicalVolume>)
    requires IntSized(v, op) && Represents(g, lvs, v) && AreasAre(snaps, v.cows) && Separate(snaps, lvs)
    modifies g, g.pvs, Bitmaps(g.pvs), lvs
    ensures Represents(g, lvs', Apply(v, op)) && AreasAre(snaps', Apply(v, op).cows)
    ensures Separate(snaps', lvs')
    ensures forall i :: 0 <= i < |lvs'| ==> lvs'[i] in lvs || fresh(lvs'[i])
    ensures forall i :: 0 <= i < |snaps'| ==> snaps'[i] in snaps || fresh(snaps'[i])
    ensures forall i :: 0 <= i < |g.pvs| ==> g.pvs[i] in old(g.pvs) || fresh(g.pvs[i])
    ensures fresh(Bitmaps(g.pvs) - old(Bitmaps(g.pvs)))
  {
    hide Bits, PhysicalVolume.View, VolumeGroup.Valid, Views, AllShaped, Apply, MapsAre;
    CowsKept(v, op);
    lvs', snaps' := lvs, snaps;
    match op
    case AddPv(n) => DoAddPv(g, lvs, n, v);
    case Create(n) => lvs' := DoCreate(g, lvs, n, v);
    case Extend(i, n) => DoExtend(g, lvs, i, n, v);
    case Snapshot(i, n) =>
      var snap := DoSnapshot(g, lvs, i, n, v);
      if snap != null {
        snaps' := snaps + [snap];
      }
  }

  /**
   * Any sequence of operations within the ints of the source, run on a new
   * volume group, leaves the bitmaps, the counters and the LE maps in the state that the value model computes. So
   * if every creation fitted, no two map entries of the objects share an extent.
   */
  method Execute(ops: seq<Op>) returns (g: VolumeGroup, lvs: seq<LogicalVolume>, snaps: seq<LogicalVolume>)
    requires Executable(ops)
    ensures fresh(g) && Represents(g, lvs, Run(ops)) && AreasAre(snaps, Run(ops).cows)
    ensures AllFit(ops) ==> NoSharing(lvs)
  {
    hide Bits, PhysicalVolume.View, VolumeGroup.Valid, Views, AllShaped, Apply, MapsAre, AreasAre, Represents;
    g := new VolumeGroup();
    lvs, snaps := [], [];
    EmptyGroup(g);
    var k := 0;
    while k < |ops|
      invariant 0 <= k <= |ops|
      invariant fresh(g) && fresh(g.pvs) && fresh(Bitmaps(g.pvs)) && fresh(lvs) && fresh(snaps)
      invariant Represents(g, lvs, Run(ops[..k])) && AreasAre(snaps, Run(ops[..k]).cows)
      invariant Separate(snaps, lvs)
    {
      assert ops[..k + 1][..k] == ops[..k];
      ExecutablePrefix(ops, k + 1);
      lvs, snaps := Do(g, lvs, snaps, ops[k], Run(ops[..k]));
      k := k + 1;
    }
    assert ops[..k] == ops;
    RunHolders(ops);
    if AllFit(ops) {
      ExclusiveMaps(g, lvs, Run(ops));
    }
  }
}
