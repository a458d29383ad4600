/** A 32-bit `int`, and what a wider number becomes in one. */
module CInt {
  const INT_MAX := 0x7FFF_FFFF

  /** (int) i: the low 32 bits, read as a signed number. */
  function ToInt(i: int): (r: int)
    ensures -INT_MAX - 1 <= r <= INT_MAX
    ensures (r - i) % 0x1_0000_0000 == 0
    ensures i >= -INT_MAX - 1 ==> r <= i
  {
    var low := i % 0x1_0000_0000;
    if low <= INT_MAX then low else low - 0x1_0000_0000
  }

  /** Every value but an int's own is read as one that is 2^32 away or more. */
  lemma ToIntOf(i: int)
    ensures -INT_MAX - 1 <= i <= INT_MAX <==> ToInt(i) == i
    ensures i > INT_MAX ==> ToInt(i) <= i - 0x1_0000_0000
    ensures INT_MAX < i <= 2 * INT_MAX ==> ToInt(i) == i - 0x1_0000_0000 < -1
  {
  }

  /** A difference may be taken before or after the conversion. */
  lemma ToIntMinus(i: int, j: int)
    ensures ToInt(ToInt(i) - j) == ToInt(i - j)
  {
  }
}
