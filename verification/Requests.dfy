// Requests of demos/iosched/iosched.c and the sector-ordered insertion that the
// deadline and cfq schedulers share.
module Requests {

  // an unsigned long clock value
  type jiffies = x: int | 0 <= x < 0x1_0000_0000_0000_0000

  // `id` is the identity of the request object; `stamp` its arrival time in jiffies
  datatype Request = Request(id: nat, sector: nat, isRead: bool, bytes: nat, stamp: jiffies)

  /** The list after the scan of add_request: before the first larger sector. */
  function Insert(q: seq<Request>, r: Request): seq<Request>
  {
    if q == [] then [r]
    else if r.sector < q[0].sector then [r] + q
    else [q[0]] + Insert(q[1..], r)
  }

  /** Insertion one by one, in arrival order. */
  function Sort(p: seq<Request>): seq<Request>
  {
    if p == [] then [] else Insert(Sort(p[..|p| - 1]), p[|p| - 1])
  }

  lemma Assoc<T>(a: seq<T>, b: seq<T>, c: seq<T>)
    ensures a + (b + c) == a + b + c
  {
  }

  lemma InsertStep(q: seq<Request>, r: Request)
    ensures if q == [] || r.sector < q[0].sector then Insert(q, r) == [r] + q
            else Insert(q, r) == [q[0]] + Insert(q[1..], r)
  {
  }

  // the insertion scan of add_request: list_for_each_entry, then list_add_tail
  method InsertBySector(q: seq<Request>, r: Request) returns (q': seq<Request>)
    ensures q' == Insert(q, r)
  {
    hide Insert;
    var i := 0;
    while i < |q| && r.sector >= q[i].sector
      invariant 0 <= i <= |q|
      invariant Insert(q, r) == q[..i] + Insert(q[i..], r)
    {
      InsertStep(q[i..], r);
      assert q[i..][1..] == q[i + 1..] && q[..i + 1] == q[..i] + [q[i]];
      Assoc(q[..i], [q[i]], Insert(q[i + 1..], r));
      i := i + 1;
    }
    InsertStep(q[i..], r);
    Assoc(q[..i], [r], q[i..]);
    q' := q[..i] + [r] + q[i..];
  }

  // ----- What Sort means

  predicate Sorted(q: seq<Request>)
  {
    forall i, j :: 0 <= i < j < |q| ==> q[i].sector <= q[j].sector
  }

  function OfSector(q: seq<Request>, k: nat): seq<Request>
  {
    if q == [] then []
    else (if q[0].sector == k then [q[0]] else []) + OfSector(q[1..], k)
  }

  lemma OfSectorCons(q: seq<Request>, k: nat)
    requires q != []
    ensures OfSector(q, k) == (if q[0].sector == k then [q[0]] else []) + OfSector(q[1..], k)
  {
  }

  lemma {:induction false} OfSectorConcat(a: seq<Request>, b: seq<Request>, k: nat)
    ensures OfSector(a + b, k) == OfSector(a, k) + OfSector(b, k)
  {
    if a == [] {
      assert a + b == b;
    } else {
      hide OfSector;
      OfSectorConcat(a[1..], b, k);
      OfSectorCons(a, k);
      OfSectorCons(a + b, k);
      assert (a + b)[0] == a[0] && (a + b)[1..] == a[1..] + b;
      Assoc(if a[0].sector == k then [a[0]] else [], OfSector(a[1..], k), OfSector(b, k));
    }
  }

  lemma {:induction false} OfSectorAbove(q: seq<Request>, k: nat)
    requires forall i :: 0 <= i < |q| ==> q[i].sector > k
    ensures OfSector(q, k) == []
  {
    if q != [] {
      OfSectorAbove(q[1..], k);
    }
  }

  lemma {:induction false} InsertKeeps(q: seq<Request>, r: Request)
    ensures multiset(Insert(q, r)) == multiset(q) + multiset{r}
    ensures |Insert(q, r)| == |q| + 1
  {
    if q != [] && r.sector >= q[0].sector {
      InsertKeeps(q[1..], r);
      assert q == [q[0]] + q[1..];
    }
  }

  lemma {:induction false} InsertSorted(q: seq<Request>, r: Request)
    requires Sorted(q)
    ensures Sorted(Insert(q, r))
  {
    if q != [] && r.sector >= q[0].sector {
      InsertSorted(q[1..], r);
      InsertKeeps(q[1..], r);
      var t := Insert(q[1..], r);
      forall i | 0 <= i < |t|
        ensures q[0].sector <= t[i].sector
      {
        assert t[i] in multiset(t);
        assert t[i] in q[1..] || t[i] == r;
      }
    }
  }

  lemma {:induction false} InsertStable(q: seq<Request>, r: Request, k: nat)
    requires Sorted(q)
    ensures OfSector(Insert(q, r), k) == OfSector(q, k) + if r.sector == k then [r] else []
  {
    if q == [] {
    } else if r.sector < q[0].sector {
      OfSectorConcat([r], q, k);
      assert OfSector([r], k) == if r.sector == k then [r] else [];
      if r.sector == k {
        OfSectorAbove(q, k);
      }
    } else {
      InsertStable(q[1..], r, k);
      assert ([q[0]] + Insert(q[1..], r))[1..] == Insert(q[1..], r);
    }
  }

  /** Sort is sector-sorted, a permutation, and keeps arrival order within a sector. */
  lemma {:induction false} SortIsStableSort(p: seq<Request>)
    ensures Sorted(Sort(p)) && multiset(Sort(p)) == multiset(p) && |Sort(p)| == |p|
    ensures forall k :: OfSector(Sort(p), k) == OfSector(p, k)
  {
    if p != [] {
      var n := |p| - 1;
      SortIsStableSort(p[..n]);
      InsertKeeps(Sort(p[..n]), p[n]);
      InsertSorted(Sort(p[..n]), p[n]);
      assert p == p[..n] + [p[n]];
      forall k
        ensures OfSector(Sort(p), k) == OfSector(p, k)
      {
        InsertStable(Sort(p[..n]), p[n], k);
        OfSectorConcat(p[..n], [p[n]], k);
        assert OfSector([p[n]], k) == if p[n].sector == k then [p[n]] else [];
      }
    }
  }

  lemma {:induction false} OfSectorFirst(q: seq<Request>, k: nat)
    requires Sorted(q) && OfSector(q, k) != []
    ensures q != [] && q[0].sector <= k
  {
    if q[0].sector != k {
      OfSectorFirst(q[1..], k);
      assert q[0].sector <= q[1].sector;
    }
  }

  lemma HeadOfSector(q: seq<Request>)
    ensures q != [] ==> OfSector(q, q[0].sector) != [] && OfSector(q, q[0].sector)[0] == q[0]
  {
  }

  lemma TailsAgree(a: seq<Request>, b: seq<Request>, s: nat)
    requires a != [] && b != [] && a[0] == b[0] && OfSector(a, s) == OfSector(b, s)
    ensures OfSector(a[1..], s) == OfSector(b[1..], s)
  {
    var head := if a[0].sector == s then [a[0]] else [];
    assert OfSector(a[1..], s) == OfSector(a, s)[|head|..];
    assert OfSector(b[1..], s) == OfSector(b, s)[|head|..];
  }

  lemma SameHead(a: seq<Request>, b: seq<Request>)
    requires Sorted(a) && Sorted(b) && a != [] && forall k :: OfSector(a, k) == OfSector(b, k)
    ensures b != [] && a[0] == b[0]
  {
    HeadOfSector(a);
    OfSectorFirst(b, a[0].sector);
    HeadOfSector(b);
    OfSectorFirst(a, b[0].sector);
  }

  /** The stable sort is unique: order and per-sector contents determine the list. */
  lemma {:induction false} StableSortUnique(a: seq<Request>, b: seq<Request>)
    requires Sorted(a) && Sorted(b) && forall k :: OfSector(a, k) == OfSector(b, k)
    ensures a == b
  {
    HeadOfSector(b);
    if a != [] {
      SameHead(a, b);
      forall s
        ensures OfSector(a[1..], s) == OfSector(b[1..], s)
      {
        TailsAgree(a, b, s);
      }
      StableSortUnique(a[1..], b[1..]);
      assert a == [a[0]] + a[1..];
      assert b == [b[0]] + b[1..];
    }
  }

  // ----- list_del

  predicate Distinct(p: seq<Request>)
  {
    forall i, j :: 0 <= i < j < |p| ==> p[i] != p[j]
  }

  function Remove(p: seq<Request>, r: Request): seq<Request>
  {
    if p == [] then [] else if p[0] == r then p[1..] else [p[0]] + Remove(p[1..], r)
  }

  lemma RemoveStep(p: seq<Request>, r: Request)
    requires p != []
    ensures Remove(p, r) == if p[0] == r then p[1..] else [p[0]] + Remove(p[1..], r)
  {
  }

  lemma {:induction false} RemoveConcat(a: seq<Request>, b: seq<Request>, r: Request)
    ensures Remove(a + b, r) == if r in a then Remove(a, r) + b else a + Remove(b, r)
  {
    hide Remove;
    if a == [] {
      assert a + b == b && a + Remove(b, r) == Remove(b, r);
    } else {
      RemoveStep(a, r);
      RemoveStep(a + b, r);
      assert (a + b)[1..] == a[1..] + b && a == [a[0]] + a[1..];
      if a[0] != r {
        RemoveConcat(a[1..], b, r);
        Assoc([a[0]], Remove(a[1..], r), b);
        Assoc([a[0]], a[1..], Remove(b, r));
      }
    }
  }

  lemma {:induction false} RemoveKeeps(p: seq<Request>, r: Request)
    requires r in p
    ensures multiset(p) == multiset(Remove(p, r)) + multiset{r}
    ensures |Remove(p, r)| == |p| - 1
  {
    assert p == [p[0]] + p[1..];
    if p[0] != r {
      RemoveKeeps(p[1..], r);
    }
  }

  lemma {:induction false} RemoveMembers(p: seq<Request>, r: Request, x: Request)
    requires Distinct(p)
    ensures x in Remove(p, r) <==> x in p && x != r
  {
    if p != [] {
      assert p == [p[0]] + p[1..];
      RemoveMembers(p[1..], r, x);
    }
  }

  lemma {:induction false} RemoveSubset(p: seq<Request>, r: Request)
    ensures forall x :: x in Remove(p, r) ==> x in p
  {
    if p != [] {
      RemoveSubset(p[1..], r);
    }
  }

  lemma {:induction false} RemoveDistinct(p: seq<Request>, r: Request)
    requires Distinct(p)
    ensures Distinct(Remove(p, r))
  {
    if p != [] && p[0] != r {
      RemoveDistinct(p[1..], r);
      RemoveMembers(p[1..], r, p[0]);
      assert p[0] !in p[1..];
    }
  }

  lemma {:induction false} RemoveSorted(q: seq<Request>, r: Request)
    requires Sorted(q)
    ensures Sorted(Remove(q, r))
    ensures forall x :: x in Remove(q, r) ==> x in q
  {
    if q != [] && q[0] != r {
      RemoveSorted(q[1..], r);
      var t := Remove(q[1..], r);
      forall i | 0 <= i < |t|
        ensures q[0].sector <= t[i].sector
      {
        assert t[i] in q[1..];
      }
    }
  }

  lemma {:induction false} OfSectorRemove(q: seq<Request>, r: Request, k: nat)
    ensures OfSector(Remove(q, r), k) == if r.sector == k then Remove(OfSector(q, k), r) else OfSector(q, k)
  {
    if q != [] {
      var head := if q[0].sector == k then [q[0]] else [];
      var tail := OfSector(q[1..], k);
      assert OfSector(q, k) == head + tail;
      RemoveConcat(head, tail, r);
      if q[0] == r {
        assert r.sector == k ==> Remove(head, r) == [];
      } else {
        OfSectorRemove(q[1..], r, k);
        assert ([q[0]] + Remove(q[1..], r))[1..] == Remove(q[1..], r);
      }
    }
  }

  /** Removing a request from the arrival list or from the sorted list is the same thing. */
  lemma SortRemove(p: seq<Request>, r: Request)
    ensures Sort(Remove(p, r)) == Remove(Sort(p), r)
  {
    SortIsStableSort(p);
    SortIsStableSort(Remove(p, r));
    RemoveSorted(Sort(p), r);
    forall k
      ensures OfSector(Sort(Remove(p, r)), k) == OfSector(Remove(Sort(p), r), k)
    {
      OfSectorRemove(p, r, k);
      OfSectorRemove(Sort(p), r, k);
    }
    StableSortUnique(Sort(Remove(p, r)), Remove(Sort(p), r));
  }
}
