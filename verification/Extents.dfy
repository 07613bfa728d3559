// The extent allocator of demos/lvm/lvm.c on values: a physical volume is a set
// of allocated extents (PEs), a volume group a sequence of them. The classes in
// Lvm.dfy are proved against these functions, and what the volume manager
// promises is proved about them in LvmRuns.dfy.
module Extents {
  import opened Options
  import opened Sums

  datatype Pv = Pv(peCount: nat, used: set<nat>)

  // one extent of one physical volume; also the entries of an LE map
  datatype Extent = Extent(pv: nat, pe: nat)

  predicate PvOk(p: Pv)
  {
    forall x :: x in p.used ==> x < p.peCount
  }

  function Range(start: nat, count: nat): (r: set<nat>)
    ensures forall x :: x in r <==> start <= x < start + count
  {
    if count == 0 then {} else Range(start, count - 1) + {start + count - 1}
  }

  lemma {:induction false} RangeSize(start: nat, count: nat)
    ensures |Range(start, count)| == count
  {
    if count > 0 {
      RangeSize(start, count - 1);
    }
  }

  lemma SubsetSize<T>(a: set<T>, b: set<T>)
    requires a <= b
    ensures |a| <= |b|
  {
    assert b == a + (b - a);
  }

  lemma UsedAtMostAll(p: Pv)
    requires PvOk(p)
    ensures |p.used| <= p.peCount
  {
    RangeSize(0, p.peCount);
    SubsetSize(p.used, Range(0, p.peCount));
  }

  function Free(p: Pv): nat
  {
    if |p.used| <= p.peCount then p.peCount - |p.used| else 0
  }

  predicate FreeRun(p: Pv, start: nat, count: nat)
  {
    start + count <= p.peCount && forall x :: start <= x < start + count ==> x !in p.used
  }

  /** The lowest start, from `from` on, of `count` consecutive free extents. */
  function FirstFit(p: Pv, count: nat, from: nat): (r: Option<nat>)
    ensures r.None? ==> forall s :: from <= s ==> !FreeRun(p, s, count)
    ensures r.Some? ==> from <= r.value && FreeRun(p, r.value, count)
    ensures r.Some? ==> forall s :: from <= s < r.value ==> !FreeRun(p, s, count)
    decreases p.peCount + 1 - from
  {
    if from + count > p.peCount then None
    else if FreeRun(p, from, count) then Some(from)
    else FirstFit(p, count, from + 1)
  }

  function Find(p: Pv, count: nat): (r: Option<nat>)
    ensures r.None? ==> forall s: nat :: !FreeRun(p, s, count)
    ensures r.Some? ==> FreeRun(p, r.value, count)
    ensures r.Some? ==> forall s :: 0 <= s < r.value ==> !FreeRun(p, s, count)
  {
    FirstFit(p, count, 0)
  }

  /** A fitting run needs that many free extents, so the free-count test loses nothing. */
  lemma FitNeedsFree(p: Pv, start: nat, count: nat)
    requires PvOk(p) && FreeRun(p, start, count)
    ensures count <= Free(p)
  {
    UsedAtMostAll(p);
    RangeSize(start, count);
    RangeSize(0, p.peCount);
    assert p.used !! Range(start, count);
    SubsetSize(p.used + Range(start, count), Range(0, p.peCount));
  }

  /** One extent fits exactly when the volume is not full. */
  lemma OneFits(p: Pv)
    requires PvOk(p)
    ensures Find(p, 1).Some? <==> Free(p) > 0
  {
    if Find(p, 1).Some? {
      FitNeedsFree(p, Find(p, 1).value, 1);
    } else {
      forall x | x in Range(0, p.peCount)
        ensures x in p.used
      {
        assert !FreeRun(p, x, 1);
      }
      RangeSize(0, p.peCount);
      assert p.used == Range(0, p.peCount);
    }
  }

  function Mark(p: Pv, start: nat, count: nat): Pv
  {
    p.(used := p.used + Range(start, count))
  }

  lemma MarkCounts(p: Pv, start: nat, count: nat)
    requires PvOk(p) && FreeRun(p, start, count)
    ensures PvOk(Mark(p, start, count))
    ensures Free(Mark(p, start, count)) == Free(p) - count
    ensures |Mark(p, start, count).used| == |p.used| + count
  {
    RangeSize(start, count);
    assert p.used !! Range(start, count);
    UsedAtMostAll(p);
    UsedAtMostAll(Mark(p, start, count));
  }

  // ----- Volume groups

  predicate VgOk(pvs: seq<Pv>)
  {
    forall i :: 0 <= i < |pvs| ==> PvOk(pvs[i])
  }

  function FreeTotal(pvs: seq<Pv>): nat
  {
    Sum(Free, pvs)
  }

  /** The first volume, from index `i` on, with a fitting run, and its lowest fit. */
  function FirstFitFrom(pvs: seq<Pv>, count: nat, i: nat): (r: Option<Extent>)
    ensures r.None? ==> forall j :: i <= j < |pvs| ==> Find(pvs[j], count).None?
    ensures r.Some? ==> i <= r.value.pv < |pvs| && Find(pvs[r.value.pv], count) == Some(r.value.pe)
    ensures r.Some? ==> forall j :: i <= j < r.value.pv ==> Find(pvs[j], count).None?
    decreases |pvs| - i
  {
    if i >= |pvs| then None
    else match Find(pvs[i], count)
      case Some(start) => Some(Extent(i, start))
      case None => FirstFitFrom(pvs, count, i + 1)
  }

  function VgFind(pvs: seq<Pv>, count: nat): (r: Option<Extent>)
    ensures r.None? ==> forall j :: 0 <= j < |pvs| ==> Find(pvs[j], count).None?
    ensures r.Some? ==> r.value.pv < |pvs| && Find(pvs[r.value.pv], count) == Some(r.value.pe)
    ensures r.Some? ==> forall j :: 0 <= j < r.value.pv ==> Find(pvs[j], count).None?
  {
    FirstFitFrom(pvs, count, 0)
  }

  function Take(pvs: seq<Pv>, e: Extent, count: nat): (r: seq<Pv>)
    requires e.pv < |pvs|
  {
    pvs[e.pv := Mark(pvs[e.pv], e.pe, count)]
  }

  lemma TakeCounts(pvs: seq<Pv>, e: Extent, count: nat)
    requires VgOk(pvs) && e.pv < |pvs| && FreeRun(pvs[e.pv], e.pe, count)
    ensures VgOk(Take(pvs, e, count))
    ensures FreeTotal(Take(pvs, e, count)) == FreeTotal(pvs) - count
    ensures forall i :: 0 <= i < |pvs| ==> Take(pvs, e, count)[i].peCount == pvs[i].peCount
  {
    MarkCounts(pvs[e.pv], e.pe, count);
    SumUpdate(Free, pvs, e.pv, Mark(pvs[e.pv], e.pe, count));
    SumAtLeast(Free, pvs, e.pv);
  }

  /** A request for one extent fails only when the whole group is full. */
  lemma OneFitsInVg(pvs: seq<Pv>)
    requires VgOk(pvs)
    ensures VgFind(pvs, 1).Some? <==> FreeTotal(pvs) > 0
  {
    if VgFind(pvs, 1).Some? {
      var i := VgFind(pvs, 1).value.pv;
      OneFits(pvs[i]);
      SumAtLeast(Free, pvs, i);
    } else if FreeTotal(pvs) > 0 {
      var i := SumPositive(Free, pvs);
      OneFits(pvs[i]);
    }
  }

  datatype Taken = Taken(pvs: seq<Pv>, extents: seq<Extent>)

  /** Up to `n` single extents, one first-fit request each, until the group is full. */
  function TakeMany(pvs: seq<Pv>, n: nat): (r: Taken)
    ensures |r.pvs| == |pvs| && |r.extents| <= n
    decreases n
  {
    if n == 0 then Taken(pvs, [])
    else match VgFind(pvs, 1)
      case None => Taken(pvs, [])
      case Some(e) =>
        var rest := TakeMany(Take(pvs, e, 1), n - 1);
        Taken(rest.pvs, [e] + rest.extents)
  }

  predicate InUse(pvs: seq<Pv>, e: Extent)
  {
    e.pv < |pvs| && e.pe in pvs[e.pv].used
  }

  predicate Exists(pvs: seq<Pv>, e: Extent)
  {
    e.pv < |pvs| && e.pe < pvs[e.pv].peCount
  }

  lemma InUseAfterTake(pvs: seq<Pv>, e: Extent, count: nat, x: Extent)
    requires e.pv < |pvs|
    ensures InUse(Take(pvs, e, count), x) <==>
            InUse(pvs, x) || (x.pv == e.pv && e.pe <= x.pe < e.pe + count)
  {
  }

  /** `n` requests yield min(n, free) extents. */
  lemma {:induction false} TakeManyCounts(pvs: seq<Pv>, n: nat)
    requires VgOk(pvs)
    ensures var r := TakeMany(pvs, n);
      && VgOk(r.pvs)
      && |r.extents| == (if n <= FreeTotal(pvs) then n else FreeTotal(pvs))
      && FreeTotal(r.pvs) == FreeTotal(pvs) - |r.extents|
      && (forall i :: 0 <= i < |pvs| ==> r.pvs[i].peCount == pvs[i].peCount)
    decreases n
  {
    if n > 0 {
      OneFitsInVg(pvs);
      if VgFind(pvs, 1).Some? {
        var e := VgFind(pvs, 1).value;
        TakeCounts(pvs, e, 1);
        TakeManyCounts(Take(pvs, e, 1), n - 1);
      }
    }
  }

  // exactly the extents `es` have been allocated between `before` and `after`
  ghost predicate Allocates(before: seq<Pv>, after: seq<Pv>, es: seq<Extent>)
  {
    && (forall x :: InUse(after, x) <==> InUse(before, x) || x in es)
    && (forall i :: 0 <= i < |es| ==> !InUse(before, es[i]))
    && Distinct(es)
  }

  ghost predicate Distinct(es: seq<Extent>)
  {
    forall i, j :: 0 <= i < j < |es| ==> es[i] != es[j]
  }

  lemma AllocatesCons(before: seq<Pv>, e: Extent, next: seq<Pv>, after: seq<Pv>, es: seq<Extent>)
    requires !InUse(before, e) && forall x :: InUse(next, x) <==> InUse(before, x) || x == e
    requires Allocates(next, after, es)
    ensures Allocates(before, after, [e] + es)
  {
    var all := [e] + es;
    forall i, j | 0 <= i < j < |all|
      ensures all[i] != all[j]
    {
      assert all[j] == es[j - 1] && InUse(next, e);
    }
    forall i | 0 <= i < |all|
      ensures !InUse(before, all[i])
    {
      if i > 0 {
        assert all[i] == es[i - 1];
      }
    }
  }

  /** The extents handed out are new, distinct, and exactly what is allocated on top. */
  lemma {:induction false} TakeManyFresh(pvs: seq<Pv>, n: nat)
    ensures Allocates(pvs, TakeMany(pvs, n).pvs, TakeMany(pvs, n).extents)
    decreases n
  {
    if n > 0 && VgFind(pvs, 1).Some? {
      var e := VgFind(pvs, 1).value;
      var next := Take(pvs, e, 1);
      assert FreeRun(pvs[e.pv], e.pe, 1);
      forall x
        ensures InUse(next, x) <==> InUse(pvs, x) || x == e
      {
        InUseAfterTake(pvs, e, 1, x);
      }
      TakeManyFresh(next, n - 1);
      var rest := TakeMany(next, n - 1);
      AllocatesCons(pvs, e, next, rest.pvs, rest.extents);
    }
  }

  /** The j-th extent handed out is the first fit after the first j. */
  lemma {:induction false} TakeManyInOrder(pvs: seq<Pv>, n: nat, j: nat)
    requires j < |TakeMany(pvs, n).extents|
    ensures VgFind(TakeMany(pvs, j).pvs, 1) == Some(TakeMany(pvs, n).extents[j])
    decreases n
  {
    if j > 0 {
      var e := VgFind(pvs, 1).value;
      TakeManyInOrder(Take(pvs, e, 1), n - 1, j - 1);
    }
  }
}
