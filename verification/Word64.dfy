/** Unsigned machine words as bounded integers, with the wrap-around of the C
    operators written out. The names stand for the C operators: Add for +, Sub for
    binary -, Mul for *, Xor for ^, Not for ~, and Octet(w, k) for (w >> 8*k) & 0xff. */
module Word64 {

  import opened CInt

  const MODULUS := 0x1_0000_0000_0000_0000

  type word = x: int | 0 <= x < 0x1_0000_0000_0000_0000

  function Add(u: word, v: word): word { (u + v) % MODULUS }

  function Sub(u: word, v: word): word { (u - v) % MODULUS }

  function Mul(u: word, v: word): word { (u * v) % MODULUS }

  function Not(u: word): word { MODULUS - 1 - u }

  function ShiftLeft19(u: word): word { (u * 0x8_0000) % MODULUS }

  function ShiftRight23(u: word): word { u / 0x80_0000 }

  function Pow2(n: nat): (p: nat)
    ensures p > 0
  {
    if n == 0 then 1 else 2 * Pow2(n - 1)
  }

  /** Exclusive or, bit by bit from the least significant one. */
  function XorBits(u: nat, v: nat): (r: nat)
    decreases u + v
  {
    if u == 0 && v == 0 then 0
    else (if u % 2 == v % 2 then 0 else 1) + 2 * XorBits(u / 2, v / 2)
  }

  lemma {:induction false} XorBitsBound(u: nat, v: nat, n: nat)
    requires u < Pow2(n) && v < Pow2(n)
    ensures XorBits(u, v) < Pow2(n)
  {
    if n > 0 && (u > 0 || v > 0) {
      XorBitsBound(u / 2, v / 2, n - 1);
    }
  }

  lemma {:induction false} Pow2Double(n: nat)
    ensures Pow2(n + n) == Pow2(n) * Pow2(n)
  {
    if n > 0 {
      Pow2Double(n - 1);
      assert Pow2(n + n) == 2 * (2 * Pow2(n + n - 2));
    }
  }

  lemma Pow2Of64()
    ensures Pow2(64) == MODULUS
  {
    hide Pow2;
    Pow2Of8();
    Pow2Double(8);
    Pow2Double(16);
    Pow2Double(32);
  }

  lemma Pow2Of8()
    ensures Pow2(8) == 256
  {
    Pow2Double(1);
    Pow2Double(2);
    Pow2Double(4);
  }

  lemma XorFits(u: word, v: word)
    ensures XorBits(u, v) < MODULUS
  {
    Pow2Of64();
    XorBitsBound(u, v, 64);
  }

  function Xor(u: word, v: word): word {
    XorFits(u, v);
    XorBits(u, v)
  }

  function Octet(w: word, k: nat): byte
    requires k < 8
  {
    Down(w, k) % 256
  }

  /** w >> 8*k */
  function Down(w: word, k: nat): nat
    requires k < 8
  {
    w / Shift(k)
  }

  function Shift(k: nat): (p: int)
    requires k < 8
    ensures p > 0
  {
    [1, 0x100, 0x1_0000, 0x100_0000, 0x1_0000_0000, 0x100_0000_0000, 0x1_0000_0000_0000, 0x100_0000_0000_0000][k]
  }

  // ---------- laws ----------

  lemma AddSubCancel(u: word, v: word)
    ensures Add(Sub(u, v), v) == u && Sub(Add(u, v), v) == u
  {
  }

  lemma {:induction false} XorBitsCancel(u: nat, v: nat)
    ensures XorBits(XorBits(u, v), v) == u
    decreases u + v
  {
    if u > 0 || v > 0 {
      XorBitsCancel(u / 2, v / 2);
    }
  }

  lemma {:induction false} XorBitsCommute(u: nat, v: nat)
    ensures XorBits(u, v) == XorBits(v, u)
    decreases u + v
  {
    if u > 0 || v > 0 {
      XorBitsCommute(u / 2, v / 2);
    }
  }

  lemma {:induction false} XorBitsAssociate(u: nat, v: nat, w: nat)
    ensures XorBits(XorBits(u, v), w) == XorBits(u, XorBits(v, w))
    decreases u + v + w
  {
    if u > 0 || v > 0 || w > 0 {
      XorBitsAssociate(u / 2, v / 2, w / 2);
      XorBitsSplit(u, v);
      XorBitsSplit(v, w);
      XorBitsSplit(XorBits(u, v), w);
      XorBitsSplit(u, XorBits(v, w));
      hide XorBits;
    }
  }

  lemma XorBitsSplit(u: nat, v: nat)
    ensures XorBits(u, v) / 2 == XorBits(u / 2, v / 2) && XorBits(u, v) % 2 == (u % 2 + v % 2) % 2
  {
    hide XorBits;
    XorBitsUnfold(u, v);
  }

  lemma XorBitsUnfold(u: nat, v: nat)
    ensures XorBits(u, v) == (if u % 2 == v % 2 then 0 else 1) + 2 * XorBits(u / 2, v / 2)
  {
  }

  /** Bit k of a number. */
  predicate NthBit(w: nat, k: nat) {
    if k == 0 then w % 2 == 1 else NthBit(w / 2, k - 1)
  }

  /** A bit of the exclusive or is set exactly if it is set in one of the two. */
  lemma {:induction false} XorIsBitwise(u: nat, v: nat, k: nat)
    ensures NthBit(XorBits(u, v), k) <==> NthBit(u, k) != NthBit(v, k)
    decreases k
  {
    if u == 0 && v == 0 {
      ZeroBits(k);
    } else if k > 0 {
      XorIsBitwise(u / 2, v / 2, k - 1);
    }
  }

  lemma {:induction false} ZeroBits(k: nat)
    ensures !NthBit(0, k)
  {
    if k > 0 {
      ZeroBits(k - 1);
    }
  }

  /** Shifting eight places. */
  lemma ShiftedBit(w: nat, k: nat)
    ensures NthBit(w / 0x100, k) == NthBit(w, k + 8)
  {
    hide NthBit;
    OneShift(w, k + 7);
    OneShift(w / 2, k + 6);
    OneShift(w / 4, k + 5);
    OneShift(w / 8, k + 4);
    OneShift(w / 16, k + 3);
    OneShift(w / 32, k + 2);
    OneShift(w / 64, k + 1);
    OneShift(w / 128, k);
  }

  lemma OneShift(w: nat, k: nat)
    ensures NthBit(w, k + 1) == NthBit(w / 2, k)
  {
  }

  /** A remainder by a power of two keeps the low bits. */
  lemma {:induction false} LowBit(w: nat, n: nat, k: nat)
    requires k < n
    ensures NthBit(w % Pow2(n), k) == NthBit(w, k)
    decreases k
  {
    HalfOfRemainder(w, n);
    if k > 0 {
      LowBit(w / 2, n - 1, k - 1);
    }
  }

  lemma HalfOfRemainder(w: nat, n: nat)
    requires n > 0
    ensures (w % Pow2(n)) % 2 == w % 2 && (w % Pow2(n)) / 2 == (w / 2) % Pow2(n - 1)
  {
    var p, h := Pow2(n - 1), w / 2;
    assert Pow2(n) == 2 * p;
    hide Pow2;
    var q, r := h / p, h % p;
    Divided(h, p);
    assert (2 * p) * q == 2 * (p * q);
    Remainder(w, 2 * p, q, 2 * r + w % 2);
  }

  lemma Divided(x: nat, p: nat)
    requires p > 0
    ensures x == p * (x / p) + x % p && 0 <= x % p < p
  {
  }

  lemma Remainder(x: nat, p: nat, q: nat, r: nat)
    requires x == p * q + r && r < p
    ensures x % p == r
  {
    var t := x / p;
    Divided(x, p);
    if t < q {
      TimesLess(p, t, q);
    } else if q < t {
      TimesLess(p, q, t);
    }
  }

  lemma TimesLess(p: nat, t: nat, q: nat)
    requires t < q
    ensures p * t + p <= p * q
  {
    assert p * q == p * (t + 1) + p * (q - t - 1);
  }

  lemma XorCommute(u: word, v: word)
    ensures Xor(u, v) == Xor(v, u)
  {
    XorBitsCommute(u, v);
  }

  lemma XorAssociate(u: word, v: word, w: word)
    ensures Xor(Xor(u, v), w) == Xor(u, Xor(v, w))
  {
    XorBitsAssociate(u, v, w);
  }

  lemma XorCancel(u: word, v: word)
    ensures Xor(Xor(u, v), v) == u
  {
    XorBitsCancel(u, v);
  }

  predicate IsMultiplier(mul: word) {
    mul == 5 || mul == 7 || mul == 9
  }

  /** The inverse of a multiplier modulo 2^64. */
  function Inverse(mul: word): word
    requires IsMultiplier(mul)
  {
    if mul == 5 then 0xCCCC_CCCC_CCCC_CCCD
    else if mul == 7 then 0x6DB6_DB6D_B6DB_6DB7
    else 0x8E38_E38E_38E3_8E39
  }

  lemma ModUnique(x: int, q: int, b: word)
    requires x == b + q * MODULUS
    ensures x % MODULUS == b
  {
  }

  lemma TimesInverse(b: word, m: int, inv: int, j: int)
    requires m * inv == 1 + j * MODULUS
    ensures (((b * m) % MODULUS) * inv) % MODULUS == b
  {
    var k := (b * m) / MODULUS;
    calc {
      ((b * m) % MODULUS) * inv;
      (b * m - k * MODULUS) * inv;
      b * (m * inv) - k * MODULUS * inv;
      b * (1 + j * MODULUS) - k * MODULUS * inv;
      b + (b * j - k * inv) * MODULUS;
    }
    ModUnique(((b * m) % MODULUS) * inv, b * j - k * inv, b);
  }

  /** Multiplying by 5, 7 or 9 is undone by multiplying by the inverse, and back. */
  lemma MulCancel(b: word, mul: word)
    requires IsMultiplier(mul)
    ensures Mul(Mul(b, mul), Inverse(mul)) == b
    ensures Mul(Mul(b, Inverse(mul)), mul) == b
  {
    var inv := Inverse(mul);
    var j := (mul * inv) / MODULUS;
    assert mul * inv == 1 + j * MODULUS;
    TimesInverse(b, mul, inv, j);
    TimesInverse(b, inv, mul, j);
  }
}
