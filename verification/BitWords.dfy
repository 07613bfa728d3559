// Bit operations on the 64-bit words of an allocation bitmap, as the C code
// writes them (word i / 64, mask 1 << i % 64), and the set that they maintain.
module BitWords {

  function Mask(b: nat): bv64
    requires b < 64
  {
    1 << b
  }

  predicate Hit(w: bv64, mask: bv64)
  {
    w & mask != 0
  }

  predicate TestBit(words: seq<bv64>, i: nat)
    requires i / 64 < |words|
  {
    Hit(words[i / 64], Mask(i % 64))
  }

  lemma MaskNonzero(b: nat)
    requires b < 64
    ensures Mask(b) != 0
  {
  }

  lemma DistinctShifts(s: bv64, t: bv64)
    requires s < 64 && t < 64 && s != t
    ensures ((1 as bv64) << s) & ((1 as bv64) << t) == 0
  {
  }

  lemma ShiftAmount(b: nat)
    requires b < 64
    ensures Mask(b) == (1 as bv64) << (b as bv64) && (b as bv64) < 64 && (b as bv64) as nat == b
  {
  }

  lemma MasksApart(b: nat, c: nat)
    requires b < 64 && c < 64 && b != c
    ensures Mask(b) & Mask(c) == 0
  {
    var s, t := b as bv64, c as bv64;
    ShiftAmount(b);
    ShiftAmount(c);
    DistinctShifts(s, t);
  }

  lemma OrDistributes(w: bv64, x: bv64, y: bv64)
    ensures (w | x) & y == (w & y) | (x & y)
  {
  }

  lemma OrZero(a: bv64, b: bv64)
    requires b == 0
    ensures a | b == a
  {
  }

  lemma OrOtherMask(w: bv64, x: bv64, y: bv64)
    requires x & y == 0
    ensures Hit(w | x, y) <==> Hit(w, y)
  {
    OrDistributes(w, x, y);
    OrZero(w & y, x & y);
  }

  lemma OrSameMask(w: bv64, x: bv64)
    ensures (w | x) & x == x
  {
  }

  lemma AndAssociates(w: bv64, x: bv64, y: bv64)
    ensures (w & x) & y == w & (x & y)
  {
  }

  lemma NotOtherMask(x: bv64, y: bv64)
    requires x & y == 0
    ensures (!x) & y == y
  {
  }

  lemma AndNotOtherWord(w: bv64, x: bv64, y: bv64)
    requires x & y == 0
    ensures (w & !x) & y == w & y
  {
    AndAssociates(w, !x, y);
    NotOtherMask(x, y);
  }

  lemma AndNotOtherMask(w: bv64, x: bv64, y: bv64)
    requires x & y == 0
    ensures Hit(w & !x, y) <==> Hit(w, y)
  {
    AndNotOtherWord(w, x, y);
  }

  lemma AndNotSameMask(w: bv64, x: bv64)
    ensures (w & !x) & x == 0
  {
  }

  // The masks are parameters here so that a proof need not look at the shifts.
  lemma SetInWord(w: bv64, b: nat, c: nat, x: bv64, y: bv64)
    requires b < 64 && c < 64 && x == Mask(b) && y == Mask(c)
    ensures Hit(w | x, y) <==> b == c || Hit(w, y)
  {
    hide Hit, Mask;
    if b == c {
      SetSameBit(w, b, x);
    } else {
      SetOtherBit(w, b, c, x, y);
    }
  }

  lemma SetSameBit(w: bv64, b: nat, x: bv64)
    requires b < 64 && x == Mask(b)
    ensures Hit(w | x, x)
  {
    assert x != 0 by { MaskNonzero(b); }
    OrSameMask(w, x);
  }

  lemma SetOtherBit(w: bv64, b: nat, c: nat, x: bv64, y: bv64)
    requires b < 64 && c < 64 && b != c && x == Mask(b) && y == Mask(c)
    ensures Hit(w | x, y) <==> Hit(w, y)
  {
    assert x & y == 0 by { MasksApart(b, c); }
    OrOtherMask(w, x, y);
  }

  lemma ClearInWord(w: bv64, b: nat, c: nat, x: bv64, y: bv64)
    requires b < 64 && c < 64 && x == Mask(b) && y == Mask(c)
    ensures Hit(w & !x, y) <==> b != c && Hit(w, y)
  {
    if b == c {
      AndNotSameMask(w, x);
    } else {
      ClearOtherBit(w, b, c, x, y);
    }
  }

  lemma ClearOtherBit(w: bv64, b: nat, c: nat, x: bv64, y: bv64)
    requires b < 64 && c < 64 && b != c && x == Mask(b) && y == Mask(c)
    ensures Hit(w & !x, y) <==> Hit(w, y)
  {
    assert x & y == 0 by { MasksApart(b, c); }
    AndNotOtherMask(w, x, y);
  }

  lemma SameBit(i: nat, j: nat)
    ensures i == j <==> i / 64 == j / 64 && i % 64 == j % 64
  {
  }

  // a new value for the word of bit i decides that word's bits only
  lemma ReplaceWord(words: seq<bv64>, i: nat, w: bv64, j: nat)
    requires i / 64 < |words| && j / 64 < |words|
    ensures TestBit(words[i / 64 := w], j) <==> if i / 64 == j / 64 then Hit(w, Mask(j % 64)) else TestBit(words, j)
  {
  }

  // the extents whose bit is set
  function Bits(words: seq<bv64>, n: nat): (r: set<nat>)
    requires n <= 64 * |words|
    ensures forall x :: x in r ==> x < n
  {
    if n == 0 then {} else Bits(words, n - 1) + if TestBit(words, n - 1) then {n - 1} else {}
  }

  lemma {:induction false} BitsMember(words: seq<bv64>, n: nat, x: nat)
    requires n <= 64 * |words|
    ensures x in Bits(words, n) <==> x < n && TestBit(words, x)
  {
    hide Hit, Mask;
    if n > 0 {
      BitsMember(words, n - 1, x);
    }
  }

  lemma {:induction false} NoBits(words: seq<bv64>, n: nat)
    requires n <= 64 * |words| && forall i :: 0 <= i < |words| ==> words[i] == 0
    ensures Bits(words, n) == {}
  {
    if n > 0 {
      NoBits(words, n - 1);
    }
  }

  lemma TestAfterSet(words: seq<bv64>, i: nat, w: bv64, x: nat)
    requires i / 64 < |words| && x / 64 < |words| && w == words[i / 64] | Mask(i % 64)
    ensures TestBit(words[i / 64 := w], x) <==> x == i || TestBit(words, x)
  {
    hide Hit, Mask;
    ReplaceWord(words, i, w, x);
    SameBit(i, x);
    SetInWord(words[i / 64], i % 64, x % 64, Mask(i % 64), Mask(x % 64));
  }

  lemma TestAfterClear(words: seq<bv64>, i: nat, w: bv64, x: nat)
    requires i / 64 < |words| && x / 64 < |words| && w == words[i / 64] & !Mask(i % 64)
    ensures TestBit(words[i / 64 := w], x) <==> x != i && TestBit(words, x)
  {
    hide Hit, Mask;
    ReplaceWord(words, i, w, x);
    SameBit(i, x);
    ClearInWord(words[i / 64], i % 64, x % 64, Mask(i % 64), Mask(x % 64));
  }

  lemma BitsAfterSet(words: seq<bv64>, n: nat, i: nat, w: bv64)
    requires i < n <= 64 * |words| && w == words[i / 64] | Mask(i % 64)
    ensures Bits(words[i / 64 := w], n) == Bits(words, n) + {i}
  {
    hide Hit, Mask, TestBit;
    forall x: nat
      ensures x in Bits(words[i / 64 := w], n) <==> x == i || x in Bits(words, n)
    {
      BitsMember(words[i / 64 := w], n, x);
      BitsMember(words, n, x);
      if x < n {
        TestAfterSet(words, i, w, x);
      }
    }
  }

  lemma BitsAfterClear(words: seq<bv64>, n: nat, i: nat, w: bv64)
    requires i < n <= 64 * |words| && w == words[i / 64] & !Mask(i % 64)
    ensures Bits(words[i / 64 := w], n) == Bits(words, n) - {i}
  {
    hide Hit, Mask, TestBit;
    forall x: nat
      ensures x in Bits(words[i / 64 := w], n) <==> x != i && x in Bits(words, n)
    {
      BitsMember(words[i / 64 := w], n, x);
      BitsMember(words, n, x);
      if x < n {
        TestAfterClear(words, i, w, x);
      }
    }
  }
}
