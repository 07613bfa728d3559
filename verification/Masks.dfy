// Facts about 32-bit address masks, for the routing table.
module Masks {

  // the bits of `a` are among those of `b`
  predicate Subset(a: bv32, b: bv32)
  {
    b & a == a
  }

  // `x` and `y` are the same under the mask
  predicate Agree(x: bv32, y: bv32, mask: bv32)
  {
    x & mask == y & mask
  }

  // network bits first, then host bits
  predicate Contiguous(m: bv32)
  {
    var host := !m;
    host & (host + 1) == 0
  }

  function Low(m: bv32): nat
  {
    if m & 1 == 1 then 1 else 0
  }

  function Half(m: bv32): bv32
  {
    m >> 1
  }

  /** The number of one bits. */
  function Ones(m: bv32): nat
    decreases m
  {
    if m == 0 then 0 else Low(m) + Ones(Half(m))
  }

  lemma OnesStep(m: bv32)
    ensures Ones(m) == Low(m) + Ones(Half(m))
  {
  }

  lemma SubsetShift(a: bv32, b: bv32)
    requires Subset(a, b)
    ensures Subset(Half(a), Half(b))
  {
  }

  lemma SubsetLow(a: bv32, b: bv32)
    requires Subset(a, b)
    ensures Low(a) <= Low(b)
  {
  }

  lemma ShiftDetermines(a: bv32, b: bv32)
    requires Half(a) == Half(b) && Low(a) == Low(b)
    ensures a == b
  {
  }

  lemma SubsetOfZero(a: bv32)
    requires Subset(a, 0)
    ensures a == 0
  {
  }

  lemma ShiftSmaller(b: bv32)
    requires b != 0
    ensures Half(b) < b
  {
  }

  /** A strictly larger mask has strictly more bits. */
  lemma {:induction false} OnesMonotone(a: bv32, b: bv32)
    requires Subset(a, b)
    ensures Ones(a) <= Ones(b)
    ensures a != b ==> Ones(a) < Ones(b)
    decreases b
  {
    hide Subset, Ones, Low, Half;
    if b == 0 {
      SubsetOfZero(a);
    } else {
      OnesStep(a);
      OnesStep(b);
      SubsetShift(a, b);
      SubsetLow(a, b);
      ShiftSmaller(b);
      var a', b' := Half(a), Half(b);
      OnesMonotone(a', b');
      if a' == b' && Low(a) == Low(b) {
        ShiftDetermines(a, b);
      }
    }
  }

  lemma ContiguousNest(a: bv32, b: bv32)
    requires Contiguous(a) && Contiguous(b)
    ensures Subset(a, b) || Subset(b, a)
  {
  }

  lemma SubsetAntisymmetric(a: bv32, b: bv32)
    requires Subset(a, b) && Subset(b, a)
    ensures a == b
  {
  }

  lemma SubsetReflexive(a: bv32)
    ensures Subset(a, a)
  {
  }

  /** Contiguous masks are ordered by their length. */
  lemma LongerContains(a: bv32, b: bv32)
    requires Contiguous(a) && Contiguous(b) && Ones(a) <= Ones(b)
    ensures Subset(a, b)
  {
    hide Subset, Ones, Contiguous;
    ContiguousNest(a, b);
    if Subset(b, a) {
      OnesMonotone(b, a);
      SubsetReflexive(a);
    }
  }

  lemma AndAssociates(x: bv32, y: bv32, z: bv32)
    ensures (x & y) & z == x & (y & z)
  {
  }

  lemma AgreeOnSubset(x: bv32, y: bv32, a: bv32, b: bv32)
    requires Subset(a, b) && Agree(x, y, b)
    ensures Agree(x, y, a)
  {
    AndAssociates(x, b, a);
    AndAssociates(y, b, a);
  }

  lemma AgreeSymmetric(x: bv32, y: bv32, m: bv32)
    requires Agree(x, y, m)
    ensures Agree(y, x, m)
  {
  }

  lemma AgreeTransitive(x: bv32, y: bv32, z: bv32, m: bv32)
    requires Agree(x, y, m) && Agree(y, z, m)
    ensures Agree(x, z, m)
  {
  }

  // changing every bit outside a mask
  lemma FlipOutsideAgrees(x: bv32, m: bv32)
    ensures Agree(x ^ !m, x, m)
  {
  }

  lemma FlipOutsideTells(x: bv32, m: bv32, m': bv32)
    requires Agree(x ^ !m, x, m')
    ensures Subset(m', m)
  {
  }

  // ----- What the number of ones means

  predicate Bit(m: bv32, s: bv32)
    requires s <= 32
  {
    (m >> s) & 1 == 1
  }

  // how many of the positions from `s` to 31 are set in `m`
  function SetFrom(m: bv32, s: bv32): nat
    requires s <= 32
    decreases 32 - s
  {
    if s == 32 then 0 else (if Bit(m, s) then 1 else 0) + SetFrom(m, s + 1)
  }

  lemma ShiftOnce(m: bv32, s: bv32)
    requires s < 32
    ensures (m >> s) >> 1 == m >> (s + 1)
  {
  }

  lemma LowIsBit(m: bv32, s: bv32)
    requires s <= 32
    ensures Low(m >> s) == if Bit(m, s) then 1 else 0
  {
  }

  lemma ShiftedOut(m: bv32)
    ensures m >> 32 == 0 && m >> 0 == m && Ones(m >> 32) == 0
  {
  }

  lemma {:induction false} OnesFrom(m: bv32, s: bv32)
    requires s <= 32
    ensures Ones(m >> s) == SetFrom(m, s)
    decreases 32 - s
  {
    hide Low, Bit, Ones;
    if s == 32 {
      ShiftedOut(m);
    } else {
      OnesStep(m >> s);
      ShiftOnce(m, s);
      LowIsBit(m, s);
      OnesFrom(m, s + 1);
    }
  }

  /** It is the number of the 32 bit positions that are set. */
  lemma OnesCountsBits(m: bv32)
    ensures Ones(m) == SetFrom(m, 0)
  {
    hide Ones, SetFrom;
    OnesFrom(m, 0);
    ShiftedOut(m);
  }

  lemma NextPosition(s: bv32)
    requires s < 32
    ensures (s + 1) as nat == s as nat + 1
  {
  }

  lemma SetUpward(m: bv32, s: bv32)
    requires Contiguous(m) && s < 31 && Bit(m, s)
    ensures Bit(m, s + 1)
  {
  }

  lemma {:induction false} AllSetFrom(m: bv32, s: bv32)
    requires Contiguous(m) && s < 32 && Bit(m, s)
    ensures SetFrom(m, s) + s as nat == 32
    decreases 32 - s
  {
    hide Contiguous, Bit;
    NextPosition(s);
    if s < 31 {
      SetUpward(m, s);
      AllSetFrom(m, s + 1);
    } else {
      assert s == 31 && SetFrom(m, 32) == 0;
    }
  }

  lemma {:induction false} NoneSetBelow(m: bv32, t: bv32, s: bv32)
    requires t <= s <= 32 && forall u: bv32 :: t <= u < s ==> !Bit(m, u)
    ensures SetFrom(m, t) == SetFrom(m, s)
    decreases s - t
  {
    hide Bit;
    if t < s {
      NoneSetBelow(m, t + 1, s);
    }
  }

  /** A contiguous mask with `s` low zero bits is a prefix of 32 - s bits. */
  lemma PrefixLength(m: bv32, s: bv32)
    requires Contiguous(m) && s < 32 && Bit(m, s) && forall u: bv32 :: u < s ==> !Bit(m, u)
    ensures Ones(m) + s as nat == 32
  {
    hide Ones, SetFrom, Contiguous, Bit;
    OnesCountsBits(m);
    NoneSetBelow(m, 0, s);
    AllSetFrom(m, s);
  }
}
