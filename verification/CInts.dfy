// The int of the C sources, in two's complement: sums and products that leave its
// range wrap around.
module CInts {

  const INT_MAX := 0x7FFF_FFFF

  // the values of a C int
  type int32 = x: int | -INT_MAX - 1 <= x <= INT_MAX

  // the conversion to it
  function ToInt32(x: int): int32
  {
    (x + 0x8000_0000) % 0x1_0000_0000 - 0x8000_0000
  }

  // the counts a caller may ask for; the least int would overflow `start + count`
  type count32 = x: int | -INT_MAX <= x <= INT_MAX

  lemma FitsIff(x: nat)
    ensures ToInt32(x) == x <==> x <= INT_MAX
  {
  }

  lemma WrapAgain(x: int)
    ensures ToInt32(ToInt32(x) + 1) == ToInt32(x + 1)
  {
  }

  // a wrapped sum is the expected one exactly when it did not wrap
  lemma WrapRight(x: int, y: int)
    requires -INT_MAX - 1 <= y <= INT_MAX && -0x1_0000_0000 < x - y < 0x1_0000_0000
    ensures ToInt32(x) == y <==> x == y
  {
  }
}
