// Sums of a natural-valued measure over a sequence, shared by the models that
// count threads, extents, pages and requests.
module Sums {

  function Sum<T>(f: T -> nat, s: seq<T>): nat
  {
    if s == [] then 0 else Sum(f, s[..|s| - 1]) + f(s[|s| - 1])
  }

  lemma {:induction false} SumAppend<T>(f: T -> nat, s: seq<T>, x: T)
    ensures Sum(f, s + [x]) == Sum(f, s) + f(x)
  {
    assert (s + [x])[..|s|] == s;
  }

  /** Replacing one element changes the sum by the difference of its measures. */
  lemma {:induction false} SumUpdate<T>(f: T -> nat, s: seq<T>, i: nat, x: T)
    requires i < |s|
    ensures Sum(f, s[i := x]) + f(s[i]) == Sum(f, s) + f(x)
  {
    var n := |s| - 1;
    if i == n {
      assert s[i := x][..n] == s[..n];
    } else {
      assert s[i := x][..n] == s[..n][i := x];
      SumUpdate(f, s[..n], i, x);
    }
  }

  /** Each element is bounded by the sum, and so are two elements together. */
  lemma {:induction false} SumAtLeast<T>(f: T -> nat, s: seq<T>, i: nat)
    requires i < |s|
    ensures f(s[i]) <= Sum(f, s)
  {
    if i < |s| - 1 {
      SumAtLeast(f, s[..|s| - 1], i);
    }
  }

  lemma {:induction false} SumAtLeastTwo<T>(f: T -> nat, s: seq<T>, i: nat, j: nat)
    requires i < j < |s|
    ensures f(s[i]) + f(s[j]) <= Sum(f, s)
  {
    if j == |s| - 1 {
      SumAtLeast(f, s[..j], i);
    } else {
      SumAtLeastTwo(f, s[..|s| - 1], i, j);
    }
  }

  /** A positive sum has a positive element. */
  lemma {:induction false} SumPositive<T>(f: T -> nat, s: seq<T>) returns (i: nat)
    requires Sum(f, s) > 0
    ensures i < |s| && f(s[i]) > 0
  {
    if f(s[|s| - 1]) > 0 {
      i := |s| - 1;
    } else {
      i := SumPositive(f, s[..|s| - 1]);
    }
  }

  lemma {:induction false} SumConstant<T>(f: T -> nat, s: seq<T>, c: nat)
    requires forall x :: x in s ==> f(x) == c
    ensures Sum(f, s) == |s| * c
  {
    if s != [] {
      SumConstant(f, s[..|s| - 1], c);
    }
  }

  lemma {:induction false} SumUpper<T>(f: T -> nat, s: seq<T>, c: nat)
    requires forall x :: x in s ==> f(x) <= c
    ensures Sum(f, s) <= |s| * c
  {
    if s != [] {
      SumUpper(f, s[..|s| - 1], c);
    }
  }
}
