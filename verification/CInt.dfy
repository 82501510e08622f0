/** The integer types and operators of C that differ from Dafny's. */
module CInt {

  type byte = x: int | 0 <= x < 256
  type uint32 = x: int | 0 <= x < 0x1_0000_0000
  type int16 = x: int | -0x8000 <= x < 0x8000
  type int32 = x: int | -0x8000_0000 <= x < 0x8000_0000

  /** C division: the quotient is truncated toward zero. */
  function TruncDiv(x: int, d: int): int
    requires d != 0
  {
    if x >= 0 then x / d else -((-x) / d)
  }

  /** q is x/d rounded toward zero. */
  predicate Rounded(q: int, x: int, d: nat) {
    && (x >= 0 ==> q >= 0 && d * q <= x < d * (q + 1))
    && (x <= 0 ==> q <= 0 && d * (q - 1) < x <= d * q)
  }

  lemma TruncDivRounds(x: int, d: nat)
    requires d > 0
    ensures Rounded(TruncDiv(x, d), x, d)
  {
    var u := if x >= 0 then x else -x;
    assert u == d * (u / d) + u % d;
    var q := TruncDiv(x, d);
    assert d * (q + 1) == d * q + d && d * (q - 1) == d * q - d;
    if x < 0 {
      assert d * q == -(d * (u / d));
    }
  }

  lemma TimesAtMost(x: int, hi: int, a: nat)
    requires x <= hi
    ensures x * a <= hi * a
  {
  }

  /** What is stored when x is converted to a 32-bit int. */
  function ToInt32(x: int): int32 {
    (x + 0x8000_0000) % 0x1_0000_0000 - 0x8000_0000
  }

  /** Wrapping after every addition is wrapping the sum. */
  lemma ToInt32Add(x: int, y: int)
    ensures ToInt32(ToInt32(x) + y) == ToInt32(x + y)
  {
  }
}
