/** Keys of the binary trees: C strings ordered by strcmp().
    A key is the bytes before the terminating NUL, and fits the buffer of
    BT_KEY_MAX + 1 bytes that every node allocates for it. */
module Keys {
  newtype Byte = b: int | 1 <= b <= 255 witness 1

  const BT_KEY_MAX := 255

  type Key = s: seq<Byte> | |s| <= BT_KEY_MAX

  /** strcmp(): the sign of the first difference, NUL counting as 0. */
  function Strcmp(a: seq<Byte>, b: seq<Byte>): (r: int) {
    if a == [] then
      if b == [] then 0 else -(b[0] as int)
    else if b == [] then a[0] as int
    else if a[0] != b[0] then a[0] as int - b[0] as int
    else Strcmp(a[1..], b[1..])
  }

  /** The string read as digits behind a radix point, in base 256. */
  ghost function Rank(s: seq<Byte>): (r: real)
    ensures 0.0 <= r < 1.0
    ensures s != [] ==> 0.0 < r
  {
    if s == [] then 0.0 else (s[0] as int as real + Rank(s[1..])) / 256.0
  }

  /** strcmp() is a total order: it agrees with the order of the ranks, and says
      "equal" exactly for equal strings. */
  lemma {:induction false} StrcmpIsRankOrder(a: seq<Byte>, b: seq<Byte>)
    ensures Strcmp(a, b) < 0 <==> Rank(a) < Rank(b)
    ensures Strcmp(a, b) == 0 <==> Rank(a) == Rank(b)
    ensures Strcmp(a, b) == 0 <==> a == b
  {
    if a != [] && b != [] {
      StrcmpIsRankOrder(a[1..], b[1..]);
      if a[0] == b[0] {
        assert a == [a[0]] + a[1..] && b == [b[0]] + b[1..];
      }
    }
  }
}
