// Striping maps of demos/raid/raid.c: RAID 0, RAID 10 and the RAID 5 rotation.
module Raid {
  import opened Arith

  datatype Place = Place(disk: nat, sector: nat)

  // sector `off` of chunk number `row`
  function InRow(row: nat, chunk: nat, off: nat): nat
  {
    row * chunk + off
  }

  /** raid0_map. */
  function Raid0Map(chunk: nat, disks: nat, sector: nat): Place
    requires chunk > 0 && disks > 0
  {
    var stripe := sector / chunk;
    Place(stripe % disks, InRow(stripe / disks, chunk, sector % chunk))
  }

  // where a place comes from
  function Raid0Unmap(chunk: nat, disks: nat, p: Place): nat
    requires chunk > 0 && disks > 0
  {
    InRow(InRow(p.sector / chunk, disks, p.disk), chunk, p.sector % chunk)
  }

  lemma PlaceParts(chunk: nat, disks: nat, sector: nat)
    requires chunk > 0 && disks > 0
    ensures var p := Raid0Map(chunk, disks, sector);
      p.disk < disks && p.sector / chunk == sector / chunk / disks && p.sector % chunk == sector % chunk
  {
    var p := Raid0Map(chunk, disks, sector);
    DivModIdentity(sector / chunk, disks);
    DivModIdentity(sector, chunk);
    DivModUnique(p.sector, sector / chunk / disks, sector % chunk, chunk);
  }

  /** RAID 0 is a bijection between sectors and (disk, sector) places: one half of the round trip. */
  lemma UnmapAfterMap(chunk: nat, disks: nat, sector: nat)
    requires chunk > 0 && disks > 0
    ensures Raid0Map(chunk, disks, sector).disk < disks
    ensures Raid0Unmap(chunk, disks, Raid0Map(chunk, disks, sector)) == sector
  {
    PlaceParts(chunk, disks, sector);
    DivModIdentity(sector / chunk, disks);
    DivModIdentity(sector, chunk);
  }

  /** The other half. */
  lemma MapAfterUnmap(chunk: nat, disks: nat, p: Place)
    requires chunk > 0 && disks > 0 && p.disk < disks
    ensures Raid0Map(chunk, disks, Raid0Unmap(chunk, disks, p)) == p
  {
    var row, off := p.sector / chunk, p.sector % chunk;
    var stripe := row * disks + p.disk;
    var sector := stripe * chunk + off;
    DivModIdentity(p.sector, chunk);
    DivModUnique(sector, stripe, off, chunk);
    DivModUnique(stripe, row, p.disk, disks);
  }

  // a place never has a larger sector number, so 64-bit sectors suffice
  lemma Raid0NoGrowth(chunk: nat, disks: nat, sector: nat)
    requires chunk > 0 && disks > 0
    ensures Raid0Map(chunk, disks, sector).sector <= sector
  {
    var stripe := sector / chunk;
    DivModIdentity(sector, chunk);
    DivModIdentity(stripe, disks);
    MulMonotone(1, disks, stripe / disks);
    MulMonotone(stripe / disks, stripe, chunk);
  }

  /** raid10_map: stripes over mirror pairs, reading the primary disk of a pair. */
  function Raid10Map(chunk: nat, disks: nat, sector: nat): Place
    requires chunk > 0 && disks >= 2
  {
    var stripe := sector / chunk;
    var pair := stripe % (disks / 2);
    Place(pair * 2, InRow(stripe / (disks / 2), chunk, sector % chunk))
  }

  /** RAID 10 is the RAID 0 bijection over the pairs: onto exactly the primary disks 0, 2, 4, ... */
  lemma Raid10Bijection(chunk: nat, disks: nat, sector: nat, p: Place)
    requires chunk > 0 && disks >= 2
    ensures var q := Raid10Map(chunk, disks, sector);
      q.disk % 2 == 0 && q.disk + 1 < disks && Raid0Unmap(chunk, disks / 2, q.(disk := q.disk / 2)) == sector
    ensures p.disk % 2 == 0 && p.disk + 1 < disks ==>
      Raid10Map(chunk, disks, Raid0Unmap(chunk, disks / 2, p.(disk := p.disk / 2))) == p
  {
    UnmapAfterMap(chunk, disks / 2, sector);
    if p.disk % 2 == 0 && p.disk + 1 < disks {
      MapAfterUnmap(chunk, disks / 2, p.(disk := p.disk / 2));
    }
  }

  // ----- Balance

  /** All sectors of a stripe go to one disk, whatever the chunk size. */
  lemma StripeDisk(chunk: nat, disks: nat, stripe: nat, off: nat)
    requires chunk > 0 && disks > 0 && off < chunk
    ensures Raid0Map(chunk, disks, stripe * chunk + off).disk == stripe % disks
    ensures disks >= 2 ==> Raid10Map(chunk, disks, stripe * chunk + off).disk == stripe % (disks / 2) * 2
  {
    DivModUnique(stripe * chunk + off, stripe, off, chunk);
  }

  // how many of the first `stripes` stripes raid0_map sends to disk `d`
  function Load(chunk: nat, disks: nat, stripes: nat, d: nat): nat
    requires chunk > 0 && disks > 0
  {
    if stripes == 0 then 0
    else Load(chunk, disks, stripes - 1, d) + if Raid0Map(chunk, disks, (stripes - 1) * chunk).disk == d then 1 else 0
  }

  lemma {:induction false} LoadExact(chunk: nat, disks: nat, stripes: nat, d: nat)
    requires chunk > 0 && disks > 0 && d < disks
    ensures Load(chunk, disks, stripes, d) == stripes / disks + if d < stripes % disks then 1 else 0
  {
    hide Raid0Map;
    if stripes == 0 {
      DivModUnique(0, 0, 0, disks);
    } else {
      LoadExact(chunk, disks, stripes - 1, d);
      StripeDisk(chunk, disks, stripes - 1, 0);
      DivModSucc(stripes - 1, disks);
      DivModIdentity(stripes - 1, disks);
    }
  }

  /** Over any prefix of stripes the loads of two disks differ by at most one. */
  lemma Balanced(chunk: nat, disks: nat, stripes: nat, d: nat, e: nat)
    requires chunk > 0 && disks > 0 && d < disks && e < disks
    ensures Load(chunk, disks, stripes, d) <= Load(chunk, disks, stripes, e) + 1
  {
    LoadExact(chunk, disks, stripes, d);
    LoadExact(chunk, disks, stripes, e);
  }

  // how many of the first `stripes` stripes raid10_map sends to disk `d`
  function Raid10Load(chunk: nat, disks: nat, stripes: nat, d: nat): nat
    requires chunk > 0 && disks >= 2
  {
    if stripes == 0 then 0
    else Raid10Load(chunk, disks, stripes - 1, d) + if Raid10Map(chunk, disks, (stripes - 1) * chunk).disk == d then 1 else 0
  }

  lemma {:induction false} Raid10LoadExact(chunk: nat, disks: nat, stripes: nat, pair: nat)
    requires chunk > 0 && disks >= 2 && pair < disks / 2
    ensures Raid10Load(chunk, disks, stripes, pair * 2) == Load(chunk, disks / 2, stripes, pair)
    ensures Raid10Load(chunk, disks, stripes, pair * 2 + 1) == 0
  {
    hide Raid0Map, Raid10Map;
    if stripes > 0 {
      Raid10LoadExact(chunk, disks, stripes - 1, pair);
      StripeDisk(chunk, disks, stripes - 1, 0);
      StripeDisk(chunk, disks / 2, stripes - 1, 0);
    }
  }

  /** Over any prefix of stripes the loads of two primary disks differ by at most one. */
  lemma Raid10Balanced(chunk: nat, disks: nat, stripes: nat, pair: nat, other: nat)
    requires chunk > 0 && disks >= 2 && pair < disks / 2 && other < disks / 2
    ensures Raid10Load(chunk, disks, stripes, pair * 2) <= Raid10Load(chunk, disks, stripes, other * 2) + 1
  {
    Raid10LoadExact(chunk, disks, stripes, pair);
    Raid10LoadExact(chunk, disks, stripes, other);
    Balanced(chunk, disks / 2, stripes, pair, other);
  }

  // ----- RAID 5

  // the rotation formula
  function Rotated(disks: nat, stripe: nat): nat
    requires disks > 0
  {
    (stripe + stripe % disks) % (disks + 1)
  }

  /** raid5_map: the rotated disk of a stripe and the sector on it. */
  function Raid5Map(chunk: nat, disks: nat, sector: nat): Place
    requires chunk > 0 && disks > 0
  {
    var stripe := sector / chunk;
    Place(Rotated(disks, stripe), InRow(stripe / (disks + 1), chunk, sector % chunk))
  }

  ghost predicate Raid5Injective(chunk: nat, disks: nat)
    requires chunk > 0 && disks > 0
  {
    forall a: nat, b: nat :: Raid5Map(chunk, disks, a) == Raid5Map(chunk, disks, b) ==> a == b
  }

  lemma SingleDiskUnmap(chunk: nat, a: nat)
    requires chunk > 0
    ensures var p := Raid5Map(chunk, 1, a); Raid0Unmap(chunk, 2, p) == a
  {
    var stripe := a / chunk;
    assert stripe % 1 == 0;
    assert Raid5Map(chunk, 1, a) == Raid0Map(chunk, 2, a);
    UnmapAfterMap(chunk, 2, a);
  }

  // two stripes of the first group that the rotation sends to one disk
  lemma StripesCollide(disks: nat) returns (s: nat, t: nat)
    requires disks >= 2
    ensures s < t <= disks && (s + s % disks) % (disks + 1) == (t + t % disks) % (disks + 1)
  {
    if disks % 2 == 0 {
      s, t := disks / 2, disks;
      DivModUnique(s, 0, s, disks);
      DivModUnique(disks, 1, 0, disks);
    } else {
      s, t := 0, (disks + 1) / 2;
      DivModUnique(t, 0, t, disks);
      DivModUnique(0, 0, 0, disks);
      DivModUnique(disks + 1, 1, 0, disks + 1);
      DivModUnique(0, 0, 0, disks + 1);
    }
  }

  /** The RAID 5 rotation keeps sectors apart only in the degenerate array with one data disk. */
  lemma Raid5InjectiveIff(chunk: nat, disks: nat)
    requires chunk > 0 && disks > 0
    ensures Raid5Injective(chunk, disks) <==> disks == 1
  {
    if disks == 1 {
      forall a: nat, b: nat | Raid5Map(chunk, 1, a) == Raid5Map(chunk, 1, b)
        ensures a == b
      {
        SingleDiskUnmap(chunk, a);
        SingleDiskUnmap(chunk, b);
      }
    } else {
      var s, t := StripesCollide(disks);
      DivModUnique(s * chunk, s, 0, chunk);
      DivModUnique(t * chunk, t, 0, chunk);
      DivModUnique(s, 0, s, disks + 1);
      DivModUnique(t, 0, t, disks + 1);
      assert Raid5Map(chunk, disks, s * chunk) == Raid5Map(chunk, disks, t * chunk);
      MulStrict(s, t, chunk);
    }
  }
}
