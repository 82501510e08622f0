/** Sample width conversion over byte memory that input and output may share, on a
    little-endian machine. Samples are signed; a shift left multiplies, an arithmetic
    shift right divides rounding down, and a store keeps the low bits. */
module ConvertBits {
  import opened CInt

  function Signed(u: int, modulus: int): int
    requires modulus > 0
  {
    if u < modulus / 2 then u else u - modulus
  }

  /** The two bytes of a 16-bit sample, and below the four of a 32-bit sample, the least
      significant one first. */
  function Two(b0: byte, b1: byte): (v: int)
    ensures -0x8000 <= v < 0x8000
  {
    Signed((b0 as int) + (b1 as int) * 0x100, 0x1_0000)
  }

  function Four(b0: byte, b1: byte, b2: byte, b3: byte): (v: int)
    ensures -0x8000_0000 <= v < 0x8000_0000
  {
    Signed((b0 as int) + (b1 as int) * 0x100 + (b2 as int) * 0x1_0000 + (b3 as int) * 0x100_0000, 0x1_0000_0000)
  }

  function Get8(a: array<byte>, i: nat): int
    requires i < a.Length
    reads a
  {
    Signed(a[i], 0x100)
  }

  function Get16(a: array<byte>, i: nat): int
    requires 2 * i + 2 <= a.Length
    reads a
  {
    Two(a[2 * i], a[2 * i + 1])
  }

  function Get32(a: array<byte>, i: nat): int
    requires 4 * i + 4 <= a.Length
    reads a
  {
    Four(a[4 * i], a[4 * i + 1], a[4 * i + 2], a[4 * i + 3])
  }

  predicate IsWidth(bits: nat) {
    bits == 8 || bits == 16 || bits == 32
  }

  /** The sample formats there are. */
  predicate IsFormat(bits: nat) {
    IsWidth(bits) || bits == 24
  }

  /** The bytes taken by n samples. */
  function Bytes(bits: nat, n: nat): nat
    requires IsFormat(bits)
  {
    if bits == 8 then n else if bits == 16 then 2 * n else if bits == 24 then 3 * n else 4 * n
  }

  /** Sample i of a memory area holding samples of the given width. */
  function Sample(a: array<byte>, bits: nat, i: nat): int
    requires IsWidth(bits) && Bytes(bits, i + 1) <= a.Length
    reads a
  {
    if bits == 8 then Get8(a, i) else if bits == 16 then Get16(a, i) else Get32(a, i)
  }

  method Put8(a: array<byte>, i: nat, v: int)
    requires i < a.Length
    modifies a
    ensures -0x80 <= v < 0x80 ==> Get8(a, i) == v
    ensures forall k :: 0 <= k < a.Length && k != i ==> a[k] == old(a[k])
  {
    a[i] := v % 0x100;
  }

  method Put16(a: array<byte>, i: nat, v: int)
    requires 2 * i + 2 <= a.Length
    modifies a
    ensures -0x8000 <= v < 0x8000 ==> Get16(a, i) == v
    ensures forall k :: 0 <= k < a.Length && !(2 * i <= k < 2 * i + 2) ==> a[k] == old(a[k])
  {
    a[2 * i] := v % 0x100;
    a[2 * i + 1] := (v / 0x100) % 0x100;
  }

  method Put32(a: array<byte>, i: nat, v: int)
    requires 4 * i + 4 <= a.Length
    modifies a
    ensures -0x8000_0000 <= v < 0x8000_0000 ==> Get32(a, i) == v
    ensures forall k :: 0 <= k < a.Length && !(4 * i <= k < 4 * i + 4) ==> a[k] == old(a[k])
  {
    var v1 := v / 0x100;
    var v2 := v1 / 0x100;
    var v3 := v2 / 0x100;
    a[4 * i] := v % 0x100;
    a[4 * i + 1] := v1 % 0x100;
    a[4 * i + 2] := v2 % 0x100;
    a[4 * i + 3] := v3 % 0x100;
  }

  lemma Wide8to16(x: byte, b0: byte, b1: byte)
    ensures Two(b0, b1) == Signed(x, 0x100) * 0x100 <==> b0 == 0 && b1 == x
  {
  }

  lemma TwoUnique(b0: byte, b1: byte, c0: byte, c1: byte)
    ensures Two(b0, b1) == Two(c0, c1) <==> b0 == c0 && b1 == c1
  {
  }

  lemma FourSplit(b0: byte, b1: byte, b2: byte, b3: byte)
    ensures Four(b0, b1, b2, b3) == b0 + b1 * 0x100 + Two(b2, b3) * 0x1_0000
  {
  }

  lemma Wide8to32(x: byte, b0: byte, b1: byte, b2: byte, b3: byte)
    ensures Four(b0, b1, b2, b3) == Signed(x, 0x100) * 0x100_0000 <==> b0 == 0 && b1 == 0 && b2 == 0 && b3 == x
  {
  }

  lemma Wide16to32(x: byte, y: byte, b0: byte, b1: byte, b2: byte, b3: byte)
    ensures Four(b0, b1, b2, b3) == Two(x, y) * 0x1_0000 <==> b0 == 0 && b1 == 0 && b2 == x && b3 == y
  {
    hide Two, Four;
    FourSplit(b0, b1, b2, b3);
    TwoUnique(b2, b3, x, y);
  }

  lemma Narrow16to8(x: byte, b0: byte, b1: byte)
    ensures Signed(x, 0x100) == Two(b0, b1) / 0x100 <==> x == b1
  {
  }

  lemma Narrow32to8(x: byte, b0: byte, b1: byte, b2: byte, b3: byte)
    ensures Signed(x, 0x100) == Four(b0, b1, b2, b3) / 0x100_0000 <==> x == b3
  {
  }

  lemma Narrow32to16(x: byte, y: byte, b0: byte, b1: byte, b2: byte, b3: byte)
    ensures Two(x, y) == Four(b0, b1, b2, b3) / 0x1_0000 <==> x == b2 && y == b3
  {
    hide Two, Four;
    FourSplit(b0, b1, b2, b3);
    TwoUnique(x, y, b2, b3);
  }

  // ---------- widening: the loops run downward ----------

  method Bits8to16(out: array<byte>, inp: array<byte>, samples: nat)
    requires samples <= inp.Length && 2 * samples <= out.Length
    modifies out
    ensures forall i :: 0 <= i < samples ==> Get16(out, i) == old(Get8(inp, i)) * 0x100
    ensures forall i :: 0 <= i < samples ==> out[2 * i] == 0 && out[2 * i + 1] == old(inp[i])
    ensures forall k :: 2 * samples <= k < out.Length ==> out[k] == old(out[k])
  {
    var i := samples - 1;
    while i >= 0
      invariant -1 <= i < samples
      invariant forall j :: 0 <= j <= i ==> inp[j] == old(inp[j])
      invariant forall j :: i < j < samples ==> Get16(out, j) == old(Get8(inp, j)) * 0x100
      invariant forall k :: 2 * samples <= k < out.Length ==> out[k] == old(out[k])
    {
      Put16(out, i, Get8(inp, i) * 0x100);
      i := i - 1;
    }
    forall j | 0 <= j < samples
      ensures out[2 * j] == 0 && out[2 * j + 1] == old(inp[j])
    {
      assert Get16(out, j) == old(Get8(inp, j)) * 0x100;
      Wide8to16(old(inp[j]), out[2 * j], out[2 * j + 1]);
    }
  }

  method Bits8to32(out: array<byte>, inp: array<byte>, samples: nat)
    requires samples <= inp.Length && 4 * samples <= out.Length
    modifies out
    ensures forall i :: 0 <= i < samples ==> Get32(out, i) == old(Get8(inp, i)) * 0x100_0000
    ensures forall i :: 0 <= i < samples ==>
              out[4 * i] == 0 && out[4 * i + 1] == 0 && out[4 * i + 2] == 0 && out[4 * i + 3] == old(inp[i])
    ensures forall k :: 4 * samples <= k < out.Length ==> out[k] == old(out[k])
  {
    var i := samples - 1;
    while i >= 0
      invariant -1 <= i < samples
      invariant forall j :: 0 <= j <= i ==> inp[j] == old(inp[j])
      invariant forall j :: i < j < samples ==> Get32(out, j) == old(Get8(inp, j)) * 0x100_0000
      invariant forall k :: 4 * samples <= k < out.Length ==> out[k] == old(out[k])
    {
      Put32(out, i, Get8(inp, i) * 0x100_0000);
      i := i - 1;
    }
    forall j | 0 <= j < samples
      ensures out[4 * j] == 0 && out[4 * j + 1] == 0 && out[4 * j + 2] == 0 && out[4 * j + 3] == old(inp[j])
    {
      assert Get32(out, j) == old(Get8(inp, j)) * 0x100_0000;
      Wide8to32(old(inp[j]), out[4 * j], out[4 * j + 1], out[4 * j + 2], out[4 * j + 3]);
    }
  }

  method Bits16to32(out: array<byte>, inp: array<byte>, samples: nat)
    requires 2 * samples <= inp.Length && 4 * samples <= out.Length
    modifies out
    ensures forall i :: 0 <= i < samples ==> Get32(out, i) == old(Get16(inp, i)) * 0x1_0000
    ensures forall i :: 0 <= i < samples ==>
              out[4 * i] == 0 && out[4 * i + 1] == 0 && out[4 * i + 2] == old(inp[2 * i])
              && out[4 * i + 3] == old(inp[2 * i + 1])
    ensures forall k :: 4 * samples <= k < out.Length ==> out[k] == old(out[k])
  {
    hide Two, Four;
    var i := samples - 1;
    while i >= 0
      invariant -1 <= i < samples
      invariant forall k :: 0 <= k < 2 * i + 2 ==> inp[k] == old(inp[k])
      invariant forall j :: i < j < samples ==> Get32(out, j) == old(Get16(inp, j)) * 0x1_0000
      invariant forall k :: 4 * samples <= k < out.Length ==> out[k] == old(out[k])
    {
      Put32(out, i, Get16(inp, i) * 0x1_0000);
      i := i - 1;
    }
    forall j | 0 <= j < samples
      ensures out[4 * j] == 0 && out[4 * j + 1] == 0 && out[4 * j + 2] == old(inp[2 * j])
              && out[4 * j + 3] == old(inp[2 * j + 1])
    {
      assert Get32(out, j) == old(Get16(inp, j)) * 0x1_0000;
      Wide16to32(old(inp[2 * j]), old(inp[2 * j + 1]), out[4 * j],
                 out[4 * j + 1], out[4 * j + 2], out[4 * j + 3]);
    }
  }

  // ---------- narrowing: the loops run upward ----------

  method Bits16to8(out: array<byte>, inp: array<byte>, samples: nat)
    requires 2 * samples <= inp.Length && samples <= out.Length
    modifies out
    ensures forall i :: 0 <= i < samples ==> Get8(out, i) == old(Get16(inp, i)) / 0x100
    ensures forall i :: 0 <= i < samples ==> out[i] == old(inp[2 * i + 1])
    ensures forall k :: samples <= k < out.Length ==> out[k] == old(out[k])
  {
    var i := 0;
    while i < samples
      invariant 0 <= i <= samples
      invariant forall k :: 2 * i <= k < 2 * samples ==> inp[k] == old(inp[k])
      invariant forall j :: 0 <= j < i ==> Get8(out, j) == old(Get16(inp, j)) / 0x100
      invariant forall k :: samples <= k < out.Length ==> out[k] == old(out[k])
    {
      Put8(out, i, Get16(inp, i) / 0x100);
      i := i + 1;
    }
    forall j | 0 <= j < samples
      ensures out[j] == old(inp[2 * j + 1])
    {
      assert Get8(out, j) == old(Get16(inp, j)) / 0x100;
      Narrow16to8(out[j], old(inp[2 * j]), old(inp[2 * j + 1]));
    }
  }

  method Bits32to8(out: array<byte>, inp: array<byte>, samples: nat)
    requires 4 * samples <= inp.Length && samples <= out.Length
    modifies out
    ensures forall i :: 0 <= i < samples ==> Get8(out, i) == old(Get32(inp, i)) / 0x100_0000
    ensures forall i :: 0 <= i < samples ==> out[i] == old(inp[4 * i + 3])
    ensures forall k :: samples <= k < out.Length ==> out[k] == old(out[k])
  {
    var i := 0;
    while i < samples
      invariant 0 <= i <= samples
      invariant forall k :: 4 * i <= k < 4 * samples ==> inp[k] == old(inp[k])
      invariant forall j :: 0 <= j < i ==> Get8(out, j) == old(Get32(inp, j)) / 0x100_0000
      invariant forall k :: samples <= k < out.Length ==> out[k] == old(out[k])
    {
      Put8(out, i, Get32(inp, i) / 0x100_0000);
      i := i + 1;
    }
    forall j | 0 <= j < samples
      ensures out[j] == old(inp[4 * j + 3])
    {
      assert Get8(out, j) == old(Get32(inp, j)) / 0x100_0000;
      Narrow32to8(out[j], old(inp[4 * j]), old(inp[4 * j + 1]),
                   old(inp[4 * j + 2]), old(inp[4 * j + 3]));
    }
  }

  method Bits32to16(out: array<byte>, inp: array<byte>, samples: nat)
    requires 4 * samples <= inp.Length && 2 * samples <= out.Length
    modifies out
    ensures forall i :: 0 <= i < samples ==> Get16(out, i) == old(Get32(inp, i)) / 0x1_0000
    ensures forall i :: 0 <= i < samples ==> out[2 * i] == old(inp[4 * i + 2]) && out[2 * i + 1] == old(inp[4 * i + 3])
    ensures forall k :: 2 * samples <= k < out.Length ==> out[k] == old(out[k])
  {
    hide Two, Four;
    var i := 0;
    while i < samples
      invariant 0 <= i <= samples
      invariant forall k :: 4 * i <= k < 4 * samples ==> inp[k] == old(inp[k])
      invariant forall j :: 0 <= j < i ==> Get16(out, j) == old(Get32(inp, j)) / 0x1_0000
      invariant forall k :: 2 * samples <= k < out.Length ==> out[k] == old(out[k])
    {
      Put16(out, i, Get32(inp, i) / 0x1_0000);
      i := i + 1;
    }
    forall j | 0 <= j < samples
      ensures out[2 * j] == old(inp[4 * j + 2]) && out[2 * j + 1] == old(inp[4 * j + 3])
    {
      assert Get16(out, j) == old(Get32(inp, j)) / 0x1_0000;
      Narrow32to16(out[2 * j], out[2 * j + 1], old(inp[4 * j]), old(inp[4 * j + 1]),
                   old(inp[4 * j + 2]), old(inp[4 * j + 3]));
    }
  }

  // ---------- the dispatcher and the round trip ----------

  /** The value a sample has after conversion between two widths. */
  function Scale(v: int, from: nat, to: nat): int
    requires IsWidth(from) && IsWidth(to)
  {
    if to - from == 8 then v * 0x100
    else if to - from == 16 then v * 0x1_0000
    else if to - from == 24 then v * 0x100_0000
    else if from - to == 8 then v / 0x100
    else if from - to == 16 then v / 0x1_0000
    else if from - to == 24 then v / 0x100_0000
    else v
  }

  /** roar_conv_bits. Among 8, 16 and 32 bits, whether or not input and output are the same
      memory, every output sample is the scaled original input sample. Equal formats are
      copied; the other pairs with 24 bits, but for 24 to 32, are refused. */
  method ConvBits(out: array<byte>, inp: array<byte>, samples: nat, from: nat, to: nat) returns (r: int)
    requires IsFormat(from) && IsFormat(to) && !(from == 24 && to == 32)
    requires Bytes(from, samples) <= inp.Length && Bytes(to, samples) <= out.Length
    modifies out
    ensures r == if from == to || (IsWidth(from) && IsWidth(to)) then 0 else -1
    ensures r == -1 ==> out[..] == old(out[..])
    ensures IsWidth(from) && IsWidth(to) ==>
              forall i :: 0 <= i < samples ==> Sample(out, to, i) == Scale(old(Sample(inp, from, i)), from, to)
    ensures from == to ==> forall k :: 0 <= k < Bytes(from, samples) ==> out[k] == old(inp[k])
    ensures forall k :: Bytes(to, samples) <= k < out.Length ==> out[k] == old(out[k])
  {
    if from == to {
      if inp != out {
        forall k | 0 <= k < Bytes(from, samples) {
          out[k] := inp[k];
        }
      }
      return 0;
    }
    var format := (from / 8) * 16 + to / 8;
    match format {
      case 0x12 => Bits8to16(out, inp, samples);
      case 0x14 => Bits8to32(out, inp, samples);
      case 0x21 => Bits16to8(out, inp, samples);
      case 0x24 => Bits16to32(out, inp, samples);
      case 0x41 => Bits32to8(out, inp, samples);
      case 0x42 => Bits32to16(out, inp, samples);
      case _ => return -1;
    }
    return 0;
  }

  lemma ScaleBack(v: int, narrow: nat, wide: nat)
    requires IsWidth(narrow) && IsWidth(wide) && narrow <= wide
    ensures Scale(Scale(v, narrow, wide), wide, narrow) == v
  {
  }

  /** Widening and narrowing again in the same memory restores every sample. */
  method WidenNarrow(buf: array<byte>, samples: nat, narrow: nat, wide: nat)
    requires IsWidth(narrow) && IsWidth(wide) && narrow <= wide
    requires Bytes(wide, samples) <= buf.Length
    modifies buf
    ensures forall i :: 0 <= i < samples ==> Sample(buf, narrow, i) == old(Sample(buf, narrow, i))
  {
    var r := ConvBits(buf, buf, samples, narrow, wide);
    label widened:
    r := ConvBits(buf, buf, samples, wide, narrow);
    forall i | 0 <= i < samples
      ensures Sample(buf, narrow, i) == old(Sample(buf, narrow, i))
    {
      assert old@widened(Sample(buf, wide, i)) == Scale(old(Sample(buf, narrow, i)), narrow, wide);
      ScaleBack(old(Sample(buf, narrow, i)), narrow, wide);
    }
  }
}
