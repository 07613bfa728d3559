// The classes of demos/lvm/lvm.c: a physical volume with its 64-bit-word bitmap,
// a volume group with its counters, and logical volumes with their LE maps. The
// methods are the C functions, each proved against the functions of Extents.
module Lvm {
  import opened Options
  import opened Sums
  import opened Extents
  import opened BitWords
  import LvmRuns
  import opened CInts

  // an allocated extent at `i` blocks every run that reaches it
  lemma RunsBlocked(v: Pv, count: nat, i: nat, found: nat)
    requires found < count && found <= i && i in v.used
    requires forall s: nat :: s < i - found ==> !FreeRun(v, s, count)
    ensures forall s: nat :: s < i + 1 ==> !FreeRun(v, s, count)
  {
    forall s: nat | i - found <= s < i + 1
      ensures !FreeRun(v, s, count)
    {
      assert s <= i < s + count;
    }
  }

  class PhysicalVolume {
    const size: nat              // sectors
    const peCount: nat
    const bitmap: array<bv64>    // 1 = allocated
    var freePe: int32

    ghost predicate Shaped()
    {
      peCount <= 64 * bitmap.Length && peCount <= INT_MAX
    }

    ghost function View(): Pv
      requires Shaped()
      reads bitmap
    {
      Pv(peCount, Bits(bitmap[..], peCount))
    }

    // the free counter agrees with the bitmap
    ghost predicate Valid()
      reads this, bitmap
    {
      Shaped() && freePe == peCount - |View().used|
    }

    lemma ViewOk()
      requires Valid()
      ensures Shaped() && View().peCount == peCount && PvOk(View()) && freePe == Free(View())
    {
      UsedAtMostAll(View());
    }

    // pv_create; the extent count is cut to an int, and a word array of that size must exist
    constructor (sizeSectors: nat)
      requires 0 <= ToInt32(sizeSectors / LvmRuns.PE_SECTORS) <= INT_MAX - 63
      ensures Valid() && fresh(bitmap)
      ensures peCount == ToInt32(sizeSectors / LvmRuns.PE_SECTORS) && View().used == {}
      ensures peCount == sizeSectors / LvmRuns.PE_SECTORS <==> sizeSectors < 0x8000_0000 * LvmRuns.PE_SECTORS
      ensures freePe == peCount
    {
      hide Bits, ToInt32;
      var n := ToInt32(sizeSectors / LvmRuns.PE_SECTORS);
      FitsIff(sizeSectors / LvmRuns.PE_SECTORS);
      size := sizeSectors;
      peCount := n;
      var words := new bv64[(n + 63) / 64](_ => 0);
      bitmap := words;
      freePe := n;
      new;
      assert forall i :: 0 <= i < words.Length ==> words[i] == 0;
      NoBits(bitmap[..], peCount);
    }

    // the search loop of pv_alloc
    method Scan(count: count32) returns (found: int, start: int)
      requires Shaped()
      ensures count >= 1 ==> (found == count <==> Find(View(), count).Some?)
      ensures count >= 1 ==> 0 <= found <= count && (found == count ==> Find(View(), count) == Some(start))
      ensures count <= 0 ==> found >= 0
    {
      hide Bits;
      ghost var v := View();
      found, start := 0, -1;
      var i := 0;
      while i < peCount
        invariant 0 <= i <= peCount
        invariant found >= 0 && (count >= 1 ==> found < count)
        invariant if found == 0 then start == -1 else start == i - found && start >= 0
        invariant forall x: nat :: i - found <= x < i ==> x !in v.used
        invariant count >= 1 ==> forall s: nat :: s < i - found ==> !FreeRun(v, s, count)
      {
        var taken := IsSet(i);
        if !taken {
          if found == 0 { start := i; }
          found := found + 1;
          if found == count { break; }
        } else {
          if count >= 1 {
            RunsBlocked(v, count, i, found);
          }
          found, start := 0, -1;
        }
        i := i + 1;
      }
      if found == count && count >= 1 {
        assert FreeRun(v, start, count);
      }
    }

    /**
     * pv_alloc. For count >= 1 it succeeds exactly when some `count`
     * consecutive extents are free, and takes the lowest. The counter stays
     * right exactly when count >= 0.
     */
    method Alloc(count: count32) returns (ok: bool, start: int)
      requires Valid()
      modifies this, bitmap
      ensures Shaped()
      ensures count >= 1 ==> (ok <==> Find(old(View()), count).Some?)
      ensures count >= 1 && ok ==>
        start >= 0 && Find(old(View()), count) == Some(start) && View() == Mark(old(View()), start, count)
      ensures count <= 0 ==> ok && View() == old(View())
      ensures !ok ==> View() == old(View()) && freePe == old(freePe)
      ensures ok ==> freePe == ToInt32(old(freePe) - count)
      ensures Valid() <==> count >= 0
    {
      hide Bits;
      ViewOk();
      ghost var v := View();
      var found;
      found, start := Scan(count);
      if found < count {
        return false, start;
      }
      if count >= 1 {
        MarkRange(start, count);
        MarkCounts(v, start, count);
      }
      WrapRight(freePe - count, peCount - |View().used|);
      freePe := ToInt32(freePe - count);
      ok := true;
    }

    method IsSet(i: nat) returns (b: bool)
      requires Shaped() && i < peCount
      ensures b <==> i in View().used
    {
      hide Bits, Hit, Mask;
      BitsMember(bitmap[..], peCount, i);
      b := Hit(bitmap[i / 64], Mask(i % 64));
    }

    method Set(i: nat)
      requires Shaped() && i < peCount
      modifies bitmap
      ensures View().used == old(View().used) + {i}
    {
      ghost var words := bitmap[..];
      var w := bitmap[i / 64] | Mask(i % 64);
      bitmap[i / 64] := w;
      assert bitmap[..] == words[i / 64 := w];
      BitsAfterSet(words, peCount, i, w);
    }

    method Clear(i: nat)
      requires Shaped() && i < peCount
      modifies bitmap
      ensures View().used == old(View().used) - {i}
    {
      ghost var words := bitmap[..];
      var w := bitmap[i / 64] & !Mask(i % 64);
      bitmap[i / 64] := w;
      assert bitmap[..] == words[i / 64 := w];
      BitsAfterClear(words, peCount, i, w);
    }

    // the marking loop of pv_alloc
    method MarkRange(start: nat, count: nat)
      requires Shaped() && start + count <= peCount
      modifies bitmap
      ensures View() == Mark(old(View()), start, count)
    {
      hide Bits;
      var i := start;
      while i < start + count
        invariant start <= i <= start + count
        invariant View().used == old(View().used) + Range(start, i - start)
      {
        Set(i);
        i := i + 1;
      }
    }

    method ClearRange(start: nat, count: nat)
      requires Shaped() && start + count <= peCount
      modifies bitmap
      ensures View().used == old(View().used) - Range(start, count)
    {
      hide Bits;
      var i := start;
      while i < start + count
        invariant start <= i <= start + count
        invariant View().used == old(View().used) - Range(start, i - start)
      {
        Clear(i);
        i := i + 1;
      }
    }

    /**
     * pv_free. The extents are free afterwards; the counter stays right exactly
     * when all of them had been allocated. A negative count clears nothing and
     * still moves the counter.
     */
    method Release(start: int32, count: count32)
      requires Valid() && (count > 0 ==> 0 <= start && start + count <= peCount)
      modifies this, bitmap
      ensures Shaped() && freePe == ToInt32(old(freePe) + count)
      ensures count > 0 ==> View() == Pv(peCount, old(View().used) - Range(start, count))
      ensures count > 0 ==> (Valid() <==> Range(start, count) <= old(View().used))
      ensures count <= 0 ==> View() == old(View()) && (Valid() <==> count == 0)
    {
      hide Bits;
      if count > 0 {
        ReleaseCounts(View().used, start, count);
        ClearRange(start, count);
      }
      WrapRight(freePe + count, peCount - |View().used|);
      freePe := ToInt32(freePe + count);
    }
  }

  /** Taking away `b` removes |b| elements exactly when all of them were there. */
  lemma RemovedSize<T>(a: set<T>, b: set<T>)
    ensures |a - b| == |a| - |b| <==> b <= a
  {
    assert a == (a - b) + a * b;
    assert b == (b - a) + a * b;
    assert |b| == |b - a| + |a * b|;
    assert |a| == |a - b| + |a * b|;
    if !(b <= a) {
      var x :| x in b - a;
      assert |b - a| > 0;
    }
  }

  lemma ReleaseCounts(used: set<nat>, start: nat, count: nat)
    ensures |used - Range(start, count)| == |used| - count <==> Range(start, count) <= used
  {
    RangeSize(start, count);
    RemovedSize(used, Range(start, count));
  }

  /** Releasing what an allocation has just taken restores the volume. */
  lemma ReleaseUndoesAlloc(p: Pv, count: nat)
    requires Find(p, count).Some?
    ensures var s := Find(p, count).value;
      Pv(p.peCount, Mark(p, s, count).used - Range(s, count)) == p
  {
    var s := Find(p, count).value;
    assert FreeRun(p, s, count);
    assert Mark(p, s, count).used - Range(s, count) == p.used;
  }

  // ----- Volume groups

  ghost function Bitmaps(pvs: seq<PhysicalVolume>): set<array<bv64>>
  {
    set p | p in pvs :: p.bitmap
  }

  ghost predicate AllShaped(pvs: seq<PhysicalVolume>)
  {
    forall p :: p in pvs ==> p.Shaped()
  }

  ghost function Views(pvs: seq<PhysicalVolume>): (r: seq<Pv>)
    requires AllShaped(pvs)
    reads Bitmaps(pvs)
    ensures |r| == |pvs| && forall i :: 0 <= i < |pvs| ==> r[i] == pvs[i].View()
  {
    if pvs == [] then [] else Views(pvs[..|pvs| - 1]) + [pvs[|pvs| - 1].View()]
  }

  ghost predicate Apart(pvs: seq<PhysicalVolume>)
  {
    forall i, j :: 0 <= i < j < |pvs| ==> pvs[i] != pvs[j] && pvs[i].bitmap != pvs[j].bitmap
  }

  // neither the volume nor its bitmap is a member's
  ghost predicate NewTo(pvs: seq<PhysicalVolume>, p: PhysicalVolume)
  {
    p !in pvs && p.bitmap !in Bitmaps(pvs)
  }

  lemma ViewsAppend(pvs: seq<PhysicalVolume>, p: PhysicalVolume)
    requires AllShaped(pvs) && p.Shaped()
    ensures AllShaped(pvs + [p]) && Views(pvs + [p]) == Views(pvs) + [p.View()]
  {
    hide Bits, PhysicalVolume.View;
    assert (pvs + [p])[..|pvs|] == pvs;
  }

  lemma ApartAppend(pvs: seq<PhysicalVolume>, p: PhysicalVolume)
    requires Apart(pvs)
    ensures Apart(pvs + [p]) <==> NewTo(pvs, p)
  {
    var all := pvs + [p];
    assert all[|pvs|] == p;
    if NewTo(pvs, p) {
      forall i, j | 0 <= i < j < |all|
        ensures all[i] != all[j] && all[i].bitmap != all[j].bitmap
      {
        assert all[i] == pvs[i] && pvs[i].bitmap in Bitmaps(pvs);
      }
    } else {
      var q :| q in pvs && q.bitmap == p.bitmap;
      var i :| 0 <= i < |pvs| && pvs[i] == q;
      assert all[i] == q;
    }
  }

  lemma AddCounts(views: seq<Pv>, v: Pv)
    ensures Sum(LvmRuns.PeCount, views + [v]) == Sum(LvmRuns.PeCount, views) + v.peCount
    ensures FreeTotal(views + [v]) == FreeTotal(views) + Free(v)
  {
    SumAppend(LvmRuns.PeCount, views, v);
    SumAppend(Free, views, v);
  }

  lemma {:induction false} FreeAtMostAll(views: seq<Pv>)
    ensures FreeTotal(views) <= Sum(LvmRuns.PeCount, views)
  {
    if views != [] {
      FreeAtMostAll(views[..|views| - 1]);
    }
  }

  ghost predicate Members(pvs: seq<PhysicalVolume>)
    reads pvs, Bitmaps(pvs)
  {
    && |pvs| <= LvmRuns.MAX_PVS && Apart(pvs) && AllShaped(pvs)
    && forall i :: 0 <= i < |pvs| ==> pvs[i].Valid()
  }

  lemma ViewsOk(pvs: seq<PhysicalVolume>)
    requires Members(pvs)
    ensures VgOk(Views(pvs))
  {
    forall i | 0 <= i < |pvs|
      ensures PvOk(Views(pvs)[i])
    {
      pvs[i].ViewOk();
    }
  }

  lemma TakeKeepsSums(views: seq<Pv>, e: Extent, count: nat)
    requires VgOk(views) && e.pv < |views| && Find(views[e.pv], count) == Some(e.pe)
    ensures Sum(LvmRuns.PeCount, Take(views, e, count)) == Sum(LvmRuns.PeCount, views)
    ensures FreeTotal(Take(views, e, count)) == FreeTotal(views) - count
  {
    TakeCounts(views, e, count);
    LvmRuns.SamePeCounts(views, Take(views, e, count));
  }

  // what an attempt on volume `i` reports and leaves behind
  ghost predicate TookFrom(before: seq<Pv>, after: seq<Pv>, i: nat, count: int, ok: bool, start: int)
    requires i < |before|
  {
    if count >= 1 then
      && (ok <==> Find(before[i], count).Some?)
      && (ok ==> start >= 0 && Find(before[i], count) == Some(start))
      && after == if ok then Take(before, Extent(i, start), count) else before
    else
      ok && after == before
  }

  // what vg_alloc_pe reports and leaves behind
  ghost predicate TookFirst(before: seq<Pv>, after: seq<Pv>, count: int, ok: bool, pvIdx: nat, start: int)
  {
    if count >= 1 then
      && (ok <==> VgFind(before, count).Some?)
      && (ok ==> start >= 0 && VgFind(before, count) == Some(Extent(pvIdx, start)))
      && after == if ok then Take(before, Extent(pvIdx, start), count) else before
    else
      (ok <==> before != []) && pvIdx == 0 && after == before
  }

  lemma TookKeepsSums(before: seq<Pv>, after: seq<Pv>, i: nat, count: int, ok: bool, start: int)
    requires VgOk(before) && i < |before| && TookFrom(before, after, i, count, ok, start)
    ensures Sum(LvmRuns.PeCount, after) == Sum(LvmRuns.PeCount, before)
    ensures FreeTotal(after) == FreeTotal(before) - if ok && count >= 1 then count else 0
  {
    if ok && count >= 1 {
      TakeKeepsSums(before, Extent(i, start), count);
    }
  }

  // the loop of vg_alloc_pe has passed the first `i` volumes
  ghost predicate NoneBefore(views: seq<Pv>, count: int, i: nat)
  {
    if count >= 1 then forall j :: 0 <= j < i && j < |views| ==> Find(views[j], count).None? else i == 0
  }

  lemma NoneBeforeFirst(views: seq<Pv>, count: int)
    ensures NoneBefore(views, count, 0)
  {
  }

  lemma FirstFound(before: seq<Pv>, after: seq<Pv>, i: nat, count: int, ok: bool, start: int)
    requires i < |before| && NoneBefore(before, count, i) && TookFrom(before, after, i, count, ok, start)
    ensures if ok then TookFirst(before, after, count, true, i, start)
            else count >= 1 && after == before && NoneBefore(before, count, i + 1)
  {
    hide Find, Take;
  }

  lemma NothingFound(views: seq<Pv>, count: int)
    requires NoneBefore(views, count, |views|)
    ensures TookFirst(views, views, count, false, 0, -1) && (count >= 1 || views == [])
  {
    hide Find, Take;
  }

  class VolumeGroup {
    var pvs: seq<PhysicalVolume>
    var totalPe: int32
    var freePe: int32

    // both counters agree with the bitmaps of the members
    ghost predicate Valid()
      reads this, pvs, Bitmaps(pvs)
    {
      && Members(pvs)
      && totalPe == Sum(LvmRuns.PeCount, Views(pvs))
      && freePe == FreeTotal(Views(pvs))
    }

    lemma Facts()
      requires Valid()
      ensures AllShaped(pvs) && VgOk(Views(pvs)) && freePe == FreeTotal(Views(pvs))
      ensures totalPe == Sum(LvmRuns.PeCount, Views(pvs))
    {
      ViewsOk(pvs);
    }

    constructor ()
      ensures Valid() && pvs == []
    {
      pvs, totalPe, freePe := [], 0, 0;
    }

    /**
     * vg_add_pv. It does not look for the volume among the members, and its
     * totals wrap: the group stays in order exactly when the volume is new to it
     * and the new total fits in an int.
     */
    method AddPv(p: PhysicalVolume) returns (ok: bool)
      requires Valid() && p.Valid()
      modifies this
      ensures ok <==> |old(pvs)| < 16
      ensures pvs == if ok then old(pvs) + [p] else old(pvs)
      ensures totalPe == ToInt32(old(totalPe) + if ok then p.peCount else 0)
      ensures freePe == ToInt32(old(freePe) + if ok then p.freePe else 0)
      ensures Valid() <==> !ok || (NewTo(old(pvs), p) && old(totalPe) + p.peCount <= INT_MAX)
    {
      hide Bits, PhysicalVolume.View, PhysicalVolume.Valid, PhysicalVolume.Shaped, FreeTotal, Sum, Apart, Bitmaps, NewTo, ToInt32, Views, AllShaped;
      Facts();
      FitsIff(totalPe);
      FitsIff(freePe);
      if |pvs| >= LvmRuns.MAX_PVS {
        return false;
      }
      p.ViewOk();
      ghost var views := Views(pvs);
      ViewsAppend(pvs, p);
      AddCounts(views, p.View());
      ApartAppend(pvs, p);
      pvs := pvs + [p];
      FreeAtMostAll(views);
      FitsIff(totalPe + p.peCount);
      FitsIff(freePe + p.freePe);
      totalPe := ToInt32(totalPe + p.peCount);
      freePe := ToInt32(freePe + p.freePe);
      ok := true;
      assert Views(pvs) == views + [p.View()];
    }

    // the attempt of vg_alloc_pe on one volume: the free-count test, then pv_alloc
    method TryVolume(i: nat, count: count32) returns (ok: bool, start: int)
      requires Members(pvs) && i < |pvs|
      modifies pvs[i], pvs[i].bitmap
      ensures Members(pvs) <==> count >= 0
      ensures TookFrom(old(Views(pvs)), Views(pvs), i, count, ok, start)
    {
      hide Bits, PhysicalVolume.View, PhysicalVolume.Valid, PhysicalVolume.Shaped, FirstFit, Mark, VgOk;
      ghost var view := Views(pvs)[i];
      pvs[i].ViewOk();
      if pvs[i].freePe < count {
        if Find(view, count).Some? {
          FitNeedsFree(view, Find(view, count).value, count);
        }
        return false, -1;
      }
      ok, start := pvs[i].Alloc(count);
    }

    method TakeFrom(i: nat, count: count32) returns (ok: bool, start: int)
      requires Valid() && i < |pvs|
      modifies this, pvs[i], pvs[i].bitmap
      ensures (Valid() <==> count >= 0) && pvs == old(pvs)
      ensures TookFrom(old(Views(pvs)), Views(pvs), i, count, ok, start)
      ensures freePe == ToInt32(old(freePe) - if ok then count else 0)
    {
      hide Bits, PhysicalVolume.View, PhysicalVolume.Valid, Apart, TookFrom, FreeTotal, VgOk, Sum, ToInt32, Views, AllShaped;
      Facts();
      FitsIff(freePe);
      ghost var views := Views(pvs);
      ok, start := TryVolume(i, count);
      TookKeepsSums(views, Views(pvs), i, count, ok, start);
      if ok {
        ghost var taken := Views(pvs);
        if count >= 0 {
          FitsIff(freePe - count);
        }
        freePe := ToInt32(freePe - count);
        assert Views(pvs) == taken;
      }
    }

    /**
     * vg_alloc_pe. For count >= 1 it takes the lowest fitting run of the first
     * volume that has one, and fails only if no volume does. For count <= 0 it
     * takes nothing, and the counters stay right exactly when count is 0 or
     * there is no volume.
     */
    method AllocPe(count: count32) returns (ok: bool, pvIdx: nat, peStart: int)
      requires Valid()
      modifies this, pvs, Bitmaps(pvs)
      ensures pvs == old(pvs) && (Valid() <==> count >= 0 || pvs == [])
      ensures TookFirst(old(Views(pvs)), Views(pvs), count, ok, pvIdx, peStart)
      ensures freePe == ToInt32(old(freePe) - if ok then count else 0)
    {
      hide Bits, PhysicalVolume.View, Valid, Views, AllShaped, TookFrom, TookFirst, NoneBefore, ToInt32, Sum, FreeTotal, VgOk;
      Facts();
      FitsIff(freePe);
      ghost var views := Views(pvs);
      var i := 0;
      assert NoneBefore(views, count, 0) by { NoneBeforeFirst(views, count); }
      while i < |pvs|
        modifies this, pvs, Bitmaps(pvs)
        invariant 0 <= i <= |pvs| && pvs == old(pvs) && NoneBefore(views, count, i)
        invariant Valid() && Views(pvs) == views && freePe == old(freePe)
      {
        var done, start := TakeFrom(i, count);
        FirstFound(views, Views(pvs), i, count, done, start);
        if done {
          return true, i, start;
        }
        i := i + 1;
      }
      NothingFound(views, count);
      return false, 0, -1;
    }
  }

  // ----- Logical volumes

  // the iterations of a loop that counts an int down to zero
  function Count(n: int): nat
  {
    if n < 0 then 0 else n
  }

  class LogicalVolume {
    var leCount: int32
    var leMap: seq<Extent>
    var cowPeStart: int
    var cowPeCount: int

    ghost predicate Valid()
      reads this
    {
      leCount <= |leMap|
    }

    ghost function Map(): seq<Extent>
      requires Valid()
      reads this
    {
      leMap[..Count(leCount)]
    }

    lemma MapLength()
      requires Valid()
      ensures |Map()| == Count(leCount)
    {
    }

    constructor (leCount: int32, leMap: seq<Extent>, cowPeStart: int, cowPeCount: int)
      requires leCount <= |leMap|
      ensures Valid() && this.leCount == leCount && this.leMap == leMap
      ensures this.cowPeStart == cowPeStart && this.cowPeCount == cowPeCount
    {
      this.leCount, this.leMap := leCount, leMap;
      this.cowPeStart, this.cowPeCount := cowPeStart, cowPeCount;
    }
  }

  // one more extent taken first
  lemma TakeManyStep(pvs: seq<Pv>, n: nat)
    requires n > 0
    ensures VgFind(pvs, 1).None? ==> TakeMany(pvs, n) == Taken(pvs, [])
    ensures VgFind(pvs, 1).Some? ==>
      var e := VgFind(pvs, 1).value;
      var rest := TakeMany(Take(pvs, e, 1), n - 1);
      TakeMany(pvs, n) == Taken(rest.pvs, [e] + rest.extents)
  {
  }

  lemma TakeNone(pvs: seq<Pv>)
    ensures TakeMany(pvs, 0) == Taken(pvs, [])
  {
  }

  /**
   * The allocation loops of lv_create and lv_extend: up to `n` extents, one
   * vg_alloc_pe call each, ending at the first failure.
   */
  method AllocExtents(g: VolumeGroup, n: int32) returns (es: seq<Extent>)
    requires g.Valid()
    modifies g, g.pvs, Bitmaps(g.pvs)
    ensures g.Valid() && g.pvs == old(g.pvs)
    ensures Taken(Views(g.pvs), es) == TakeMany(old(Views(g.pvs)), Count(n))
  {
    hide Bits, PhysicalVolume.View, VolumeGroup.Valid, Views, AllShaped, TakeMany, Take, VgFind, FirstFitFrom;
    g.Facts();
    ghost var views := Views(g.pvs);
    ghost var all := TakeMany(views, Count(n));
    es := [];
    var remaining := n;
    while remaining > 0
      modifies g, g.pvs, Bitmaps(g.pvs)
      invariant remaining <= n && g.Valid() && g.pvs == old(g.pvs)
      invariant views == Views(g.pvs)
      invariant all.pvs == TakeMany(views, Count(remaining)).pvs
      invariant all.extents == es + TakeMany(views, Count(remaining)).extents
    {
      TakeManyStep(views, remaining);
      var ok, pvIdx, peStart := g.AllocPe(1);
      if !ok {
        return;
      }
      ghost var rest := TakeMany(Views(g.pvs), remaining - 1).extents;
      assert es + ([Extent(pvIdx, peStart)] + rest) == es + [Extent(pvIdx, peStart)] + rest;
      views := Views(g.pvs);
      es := es + [Extent(pvIdx, peStart)];
      remaining := remaining - 1;
    }
    TakeNone(views);
  }

  /** lv_create: the first extents of the map are the ones taken, the rest stays zero. */
  method CreateLv(g: VolumeGroup, leCount: int32) returns (l: LogicalVolume)
    requires g.Valid()
    modifies g, g.pvs, Bitmaps(g.pvs)
    ensures fresh(l) && l.Valid() && l.leCount == leCount
    ensures g.Valid() && g.pvs == old(g.pvs)
    ensures var t := TakeMany(old(Views(g.pvs)), Count(leCount));
      Views(g.pvs) == t.pvs && l.Map() == t.extents + LvmRuns.Zeros(Count(leCount) - |t.extents|)
    ensures g.freePe == (if leCount <= old(g.freePe) then old(g.freePe) - Count(leCount) else 0)
  {
    hide Bits, PhysicalVolume.View, VolumeGroup.Valid, Views, AllShaped, TakeMany, FreeTotal, VgOk;
    g.Facts();
    TakeManyCounts(Views(g.pvs), Count(leCount));
    var es := AllocExtents(g, leCount);
    g.Facts();
    l := new LogicalVolume(leCount, es + LvmRuns.Zeros(Count(leCount) - |es|), 0, 0);
  }

  /**
   * lv_extend: on success the volume grows by the extents taken; on failure its
   * size is unchanged but the extents stay allocated. A negative number cuts the
   * map short and frees nothing.
   */
  method ExtendLv(l: LogicalVolume, g: VolumeGroup, additional: int32) returns (ok: bool)
    requires g.Valid() && l.Valid() && (additional > 0 ==> l.leCount >= 0)
    requires -INT_MAX - 1 <= l.leCount + additional <= INT_MAX
    modifies l, g, g.pvs, Bitmaps(g.pvs)
    ensures l.Valid() && g.Valid() && g.pvs == old(g.pvs)
    ensures ok <==> additional <= old(g.freePe)
    ensures l.leCount == old(l.leCount) + if ok then additional else 0
    ensures var t := TakeMany(old(Views(g.pvs)), Count(additional));
      && Views(g.pvs) == t.pvs
      && (additional >= 0 ==> l.Map() == if ok then old(l.Map()) + t.extents else old(l.Map()))
    ensures additional < 0 ==> l.Map() <= old(l.Map())
  {
    hide Bits, PhysicalVolume.View, VolumeGroup.Valid, Views, AllShaped, Bitmaps, TakeMany, FreeTotal, VgOk;
    g.Facts();
    TakeManyCounts(Views(g.pvs), Count(additional));
    ghost var before := l.Map();
    var es := AllocExtents(g, additional);
    // realloc: the added entries that were not reached have no defined value
    var grown := l.leMap[..Count(l.leCount)] + es + LvmRuns.Zeros(Count(additional) - |es|);
    l.leMap := grown[..Count(l.leCount + additional)];
    if |es| < additional {
      assert l.Map() == before;
      return false;
    }
    l.leCount := l.leCount + additional;
    assert grown == before + es;
    return true;
  }

  /**
   * lv_create_snapshot: shares the origin's map and reserves one contiguous
   * area, of which only the first extent's number is recorded.
   */
  method CreateSnapshot(g: VolumeGroup, origin: LogicalVolume, cowCount: count32) returns (snap: LogicalVolume?)
    requires g.Valid() && origin.Valid()
    modifies g, g.pvs, Bitmaps(g.pvs)
    ensures g.pvs == old(g.pvs) && (g.Valid() <==> cowCount >= 0 || g.pvs == [])
    ensures snap != null <==> if cowCount >= 1 then VgFind(old(Views(g.pvs)), cowCount).Some? else |g.pvs| > 0
    ensures snap == null || cowCount <= 0 ==> Views(g.pvs) == old(Views(g.pvs))
    ensures snap != null ==>
      fresh(snap) && snap.Valid() && snap.leCount == origin.leCount && snap.Map() == origin.Map() && snap.cowPeCount == cowCount
    ensures snap != null && cowCount >= 1 ==>
      var e := VgFind(old(Views(g.pvs)), cowCount).value;
      Views(g.pvs) == Take(old(Views(g.pvs)), e, cowCount) && snap.cowPeStart == e.pe
  {
    hide Bits, PhysicalVolume.View, VolumeGroup.Valid, AllShaped, Take, VgFind;
    g.Facts();
    // both results land in one variable: the extent number overwrites the volume index
    var ok, cowStart, peStart := g.AllocPe(cowCount);
    if !ok {
      return null;
    }
    snap := new LogicalVolume(origin.leCount, origin.leMap, peStart, cowCount);
  }
}
