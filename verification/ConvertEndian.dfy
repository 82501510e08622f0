/** Byte order conversion of 16-, 24- and 32-bit samples over memory that input and
    output may share, on a little-endian machine. */
module ConvertEndian {
  import opened CInt

  datatype Order = LE | BE | PDP

  /** Where, inside a sample of w bytes, the byte of significance j is found under an order.
      PDP is what the code itself makes of it: for 32 bits, little endian with the bytes of
      each half exchanged; for 16 bits, little endian. */
  function Place(o: Order, w: nat, j: nat): (p: nat)
    requires j < w <= 4
    ensures p < w
  {
    match o
    case LE => j
    case BE => w - 1 - j
    case PDP => if w != 4 then j else if j % 2 == 0 then j + 1 else j - 1
  }

  /** The same place function for the order the repository's own constant 3412 names:
      halves exchanged, each half little endian. */
  function PdpPlace(j: nat): (p: nat)
    requires j < 4
    ensures p < 4
  {
    (j + 2) % 4
  }

  /** The number a sample stands for when read under an order. */
  function Value(s: seq<byte>, o: Order): nat
    requires |s| == 2 || |s| == 4
  {
    if |s| == 2 then (s[Place(o, 2, 0)] as int) + 0x100 * (s[Place(o, 2, 1)] as int)
    else (s[Place(o, 4, 0)] as int) + 0x100 * (s[Place(o, 4, 1)] as int)
         + 0x1_0000 * (s[Place(o, 4, 2)] as int) + 0x100_0000 * (s[Place(o, 4, 3)] as int)
  }

  // ---------- one sample ----------

  function Swap2(s: seq<byte>): seq<byte>
    requires |s| == 2
  {
    [s[1], s[0]]
  }

  function Swap4(s: seq<byte>): seq<byte>
    requires |s| == 4
  {
    [s[3], s[2], s[1], s[0]]
  }

  function SwapHalves(s: seq<byte>): seq<byte>
    requires |s| == 4
  {
    [s[1], s[0], s[3], s[2]]
  }

  /** What the in-place conversion makes of one sample. */
  function Conv(s: seq<byte>, from: Order, to: Order): (r: seq<byte>)
    requires |s| == 2 || |s| == 4
    ensures |r| == |s|
  {
    if |s| == 2 then
      (if (from == BE) == (to == BE) then s else Swap2(s))
    else if from == to then s
    else if from != PDP && to != PDP then Swap4(s)
    else
      var a := if from == BE then Swap4(s) else s;
      var b := SwapHalves(a);
      if to == BE then Swap4(b) else b
  }

  /** What a 32-bit conversion between different memories makes of one sample: with PDP and
      BE the second step starts again from the input. */
  function ConvApart(s: seq<byte>, from: Order, to: Order): (r: seq<byte>)
    requires |s| == 2 || |s| == 4
    ensures |r| == |s|
  {
    if |s| == 4 && from == BE && to == PDP then SwapHalves(s)
    else if |s| == 4 && from == PDP && to == BE then Swap4(s)
    else Conv(s, from, to)
  }

  /** Conversion keeps the value of every sample. */
  lemma ConvKeepsValue(s: seq<byte>, from: Order, to: Order)
    requires |s| == 2 || |s| == 4
    ensures Value(Conv(s, from, to), to) == Value(s, from)
  {
  }

  /** Conversions compose, so each is undone by the opposite one. */
  lemma ConvComposes(s: seq<byte>, a: Order, b: Order, c: Order)
    requires |s| == 2 || |s| == 4
    ensures Conv(Conv(s, a, b), b, c) == Conv(s, a, c)
    ensures Conv(Conv(s, a, b), b, a) == s
  {
  }

  /** The PDP form the code makes of a 32-bit sample is the order named 3412 only for samples
      that read the same from both ends. */
  lemma PdpIsMiddleEndian(s: seq<byte>, from: Order)
    requires |s| == 4 && from != PDP
    ensures (forall j: nat :: j < 4 ==> Conv(s, from, PDP)[PdpPlace(j)] == s[Place(from, 4, j)])
            <==> (s[0] == s[3] && s[1] == s[2])
  {
    var r := Conv(s, from, PDP);
    assert r[PdpPlace(0)] == s[Place(from, 4, 0)] <==> r[2] == s[Place(from, 4, 0)];
    assert r[PdpPlace(1)] == s[Place(from, 4, 1)] <==> r[3] == s[Place(from, 4, 1)];
    assert r[PdpPlace(2)] == s[Place(from, 4, 2)] <==> r[0] == s[Place(from, 4, 2)];
    assert r[PdpPlace(3)] == s[Place(from, 4, 3)] <==> r[1] == s[Place(from, 4, 3)];
  }

  /** The same for samples that come in that order: the code takes them for its own PDP form. */
  lemma MiddleEndianIsPdp(s: seq<byte>, to: Order)
    requires |s| == 4 && to != PDP
    ensures (forall j: nat :: j < 4 ==> Conv(s, PDP, to)[Place(to, 4, j)] == s[PdpPlace(j)])
            <==> (s[0] == s[3] && s[1] == s[2])
  {
    var r := Conv(s, PDP, to);
    assert r[Place(to, 4, 0)] == s[PdpPlace(0)] <==> r[Place(to, 4, 0)] == s[2];
    assert r[Place(to, 4, 1)] == s[PdpPlace(1)] <==> r[Place(to, 4, 1)] == s[3];
    assert r[Place(to, 4, 2)] == s[PdpPlace(2)] <==> r[Place(to, 4, 2)] == s[0];
    assert r[Place(to, 4, 3)] == s[PdpPlace(3)] <==> r[Place(to, 4, 3)] == s[1];
  }

  /** Between different memories the result is the same unless PDP meets BE in 32 bits, and
      then only for samples whose halves (or bytes within halves) are equal. */
  lemma ApartAgrees(s: seq<byte>, from: Order, to: Order)
    requires |s| == 2 || |s| == 4
    ensures ConvApart(s, from, to) == Conv(s, from, to)
            <==> (|s| == 4 && from == BE && to == PDP ==> s[0] == s[3] && s[1] == s[2])
                 && (|s| == 4 && from == PDP && to == BE ==> s[0] == s[1] && s[2] == s[3])
  {
    if |s| == 4 && from == BE && to == PDP {
      assert ConvApart(s, from, to)[0] == s[1] && Conv(s, from, to)[0] == s[2];
      assert ConvApart(s, from, to)[1] == s[0] && Conv(s, from, to)[1] == s[3];
    }
    if |s| == 4 && from == PDP && to == BE {
      assert ConvApart(s, from, to)[0] == s[3] && Conv(s, from, to)[0] == s[2];
      assert ConvApart(s, from, to)[2] == s[1] && Conv(s, from, to)[2] == s[0];
    }
  }

  /** The one conversion between different memories that yields the order named 3412. */
  lemma ApartIsMiddleEndian(s: seq<byte>)
    requires |s| == 4
    ensures forall j: nat :: j < 4 ==> ConvApart(s, BE, PDP)[PdpPlace(j)] == s[Place(BE, 4, j)]
  {
  }

  // ---------- the loops ----------

  function Cell2(s: seq<byte>, i: nat): (c: seq<byte>)
    requires 2 * i + 2 <= |s|
    ensures |c| == 2
  {
    [s[2 * i], s[2 * i + 1]]
  }

  function Cell4(s: seq<byte>, i: nat): (c: seq<byte>)
    requires 4 * i + 4 <= |s|
    ensures |c| == 4
  {
    [s[4 * i], s[4 * i + 1], s[4 * i + 2], s[4 * i + 3]]
  }

  method Endian16(out: array<byte>, inp: array<byte>, samples: nat)
    requires 2 * samples <= inp.Length && 2 * samples <= out.Length
    modifies out
    ensures forall i: nat :: i < samples ==> out[2 * i] == old(inp[2 * i + 1]) && out[2 * i + 1] == old(inp[2 * i])
    ensures forall k :: 2 * samples <= k < out.Length ==> out[k] == old(out[k])
  {
    var bytes := samples * 2;
    ghost var done := 0;
    if out != inp {
      var i := 0;
      while i < bytes
        invariant i == 2 * done && i <= bytes
        invariant forall f: nat :: f < done ==> out[2 * f] == inp[2 * f + 1] && out[2 * f + 1] == inp[2 * f]
        invariant forall k :: bytes <= k < out.Length ==> out[k] == old(out[k])
      {
        out[i] := inp[i + 1];
        out[i + 1] := inp[i];
        i := i + 2;
        done := done + 1;
      }
    } else {
      var i := 0;
      while i < bytes
        invariant i == 2 * done && i <= bytes
        invariant forall f: nat :: f < done ==> out[2 * f] == old(inp[2 * f + 1]) && out[2 * f + 1] == old(inp[2 * f])
        invariant forall k :: i <= k < out.Length ==> out[k] == old(out[k])
      {
        var c := inp[i + 1];
        out[i + 1] := inp[i];
        out[i] := c;
        i := i + 2;
        done := done + 1;
      }
    }
  }

  method Endian32(out: array<byte>, inp: array<byte>, samples: nat)
    requires 4 * samples <= inp.Length && 4 * samples <= out.Length
    modifies out
    ensures forall i: nat :: i < samples ==> Cell4(out[..], i) == Swap4(old(Cell4(inp[..], i)))
    ensures forall k :: 4 * samples <= k < out.Length ==> out[k] == old(out[k])
  {
    var i := 0;
    while i < samples
      invariant 0 <= i <= samples
      invariant forall k :: 4 * i <= k < 4 * samples ==> inp[k] == old(inp[k])
      invariant forall f: nat :: f < i ==> Cell4(out[..], f) == Swap4(old(Cell4(inp[..], f)))
      invariant forall k :: 4 * samples <= k < out.Length ==> out[k] == old(out[k])
    {
      ghost var before := out[..];
      var c0, c1, c2, c3 := inp[4 * i], inp[4 * i + 1], inp[4 * i + 2], inp[4 * i + 3];
      out[4 * i], out[4 * i + 1], out[4 * i + 2], out[4 * i + 3] := c3, c2, c1, c0;
      assert forall f: nat :: f < i ==> Cell4(out[..], f) == Cell4(before, f);
      i := i + 1;
    }
  }

  /** roar_conv_endian_24: the middle byte is never written, so a sample is reversed exactly if
      the output held its middle byte before, as it does in one memory. */
  method Endian24(out: array<byte>, inp: array<byte>, samples: nat)
    requires 3 * samples <= inp.Length && 3 * samples <= out.Length
    modifies out
    ensures forall i: nat :: i < samples ==> out[3 * i] == old(inp[3 * i + 2]) && out[3 * i + 2] == old(inp[3 * i])
                                             && out[3 * i + 1] == old(out[3 * i + 1])
    ensures forall i: nat :: i < samples ==>
              (out[3 * i..3 * i + 3] == old([inp[3 * i + 2], inp[3 * i + 1], inp[3 * i]])
               <==> old(out[3 * i + 1]) == old(inp[3 * i + 1]))
    ensures forall k :: 3 * samples <= k < out.Length ==> out[k] == old(out[k])
  {
    ghost var done := 0;
    var i := 0;
    while i < 3 * samples
      invariant i == 3 * done && done <= samples
      invariant forall f: nat :: f < done ==> out[3 * f] == old(inp[3 * f + 2]) && out[3 * f + 2] == old(inp[3 * f])
                                              && out[3 * f + 1] == old(out[3 * f + 1])
      invariant forall k :: i <= k < inp.Length ==> inp[k] == old(inp[k])
      invariant forall k :: i <= k < out.Length ==> out[k] == old(out[k])
    {
      var c := inp[i + 2];
      out[i + 2] := inp[i];
      out[i] := c;
      i := i + 3;
      done := done + 1;
    }
  }

  /** memcpy when the memories differ */
  method Copy(out: array<byte>, inp: array<byte>, bytes: nat)
    requires bytes <= inp.Length && bytes <= out.Length
    modifies out
    ensures forall k :: 0 <= k < bytes ==> out[k] == old(inp[k])
    ensures forall k :: bytes <= k < out.Length ==> out[k] == old(out[k])
  {
    if inp != out {
      forall k | 0 <= k < bytes {
        out[k] := inp[k];
      }
    }
  }

  /** roar_conv_endian for 16-bit samples, where PDP counts as little endian. */
  method ConvEndian16(out: array<byte>, inp: array<byte>, samples: nat, from: Order, to: Order)
    requires 2 * samples <= inp.Length && 2 * samples <= out.Length
    modifies out
    ensures forall i: nat :: i < samples ==> Cell2(out[..], i) == Conv(old(Cell2(inp[..], i)), from, to)
    ensures forall k :: 2 * samples <= k < out.Length ==> out[k] == old(out[k])
  {
    var f := if from == PDP then LE else from;
    var t := if to == PDP then LE else to;
    if f == t {
      Copy(out, inp, 2 * samples);
    } else {
      Endian16(out, inp, samples);
    }
  }

  /** roar_conv_endian for 32-bit samples. */
  method ConvEndian32(out: array<byte>, inp: array<byte>, samples: nat, from: Order, to: Order)
    requires 4 * samples <= inp.Length && 4 * samples <= out.Length
    modifies out
    ensures forall i: nat :: i < samples ==>
              Cell4(out[..], i) == if inp == out then Conv(old(Cell4(inp[..], i)), from, to)
                                   else ConvApart(old(Cell4(inp[..], i)), from, to)
    ensures forall k :: 4 * samples <= k < out.Length ==> out[k] == old(out[k])
  {
    if from == to {
      Copy(out, inp, 4 * samples);
      return;
    }
    if from != PDP && to != PDP {
      Endian32(out, inp, samples);
      return;
    }
    if from == BE {
      Endian32(out, inp, samples);
    }
    Halves(out, inp, samples);
    if to == BE {
      Endian32(out, inp, samples);
    }
  }

  /** roar_conv_endian_16 run over 32-bit samples. */
  method Halves(out: array<byte>, inp: array<byte>, samples: nat)
    requires 4 * samples <= inp.Length && 4 * samples <= out.Length
    modifies out
    ensures forall i: nat :: i < samples ==> Cell4(out[..], i) == SwapHalves(old(Cell4(inp[..], i)))
    ensures forall k :: 4 * samples <= k < out.Length ==> out[k] == old(out[k])
  {
    Endian16(out, inp, samples * 2);
    forall i: nat | i < samples ensures Cell4(out[..], i) == SwapHalves(old(Cell4(inp[..], i))) {
      assert out[2 * (2 * i)] == old(inp[2 * (2 * i) + 1]) && out[2 * (2 * i + 1)] == old(inp[2 * (2 * i + 1) + 1]);
    }
  }

  /** In one memory, any two conversions in a row are the direct conversion; with c == a they
      restore the array. */
  method ConvTwice32(buf: array<byte>, samples: nat, a: Order, b: Order, c: Order)
    requires 4 * samples <= buf.Length
    modifies buf
    ensures forall i: nat :: i < samples ==> Cell4(buf[..], i) == Conv(old(Cell4(buf[..], i)), a, c)
    ensures forall i: nat :: i < samples ==> Value(Cell4(buf[..], i), c) == Value(old(Cell4(buf[..], i)), a)
  {
    ConvEndian32(buf, buf, samples, a, b);
    ConvEndian32(buf, buf, samples, b, c);
    forall i: nat | i < samples
      ensures Cell4(buf[..], i) == Conv(old(Cell4(buf[..], i)), a, c)
      ensures Value(Cell4(buf[..], i), c) == Value(old(Cell4(buf[..], i)), a)
    {
      ConvComposes(old(Cell4(buf[..], i)), a, b, c);
      ConvKeepsValue(old(Cell4(buf[..], i)), a, c);
    }
  }

  method ConvTwice16(buf: array<byte>, samples: nat, a: Order, b: Order, c: Order)
    requires 2 * samples <= buf.Length
    modifies buf
    ensures forall i: nat :: i < samples ==> Cell2(buf[..], i) == Conv(old(Cell2(buf[..], i)), a, c)
    ensures forall i: nat :: i < samples ==> Value(Cell2(buf[..], i), c) == Value(old(Cell2(buf[..], i)), a)
  {
    ConvEndian16(buf, buf, samples, a, b);
    ConvEndian16(buf, buf, samples, b, c);
    forall i: nat | i < samples
      ensures Cell2(buf[..], i) == Conv(old(Cell2(buf[..], i)), a, c)
      ensures Value(Cell2(buf[..], i), c) == Value(old(Cell2(buf[..], i)), a)
    {
      ConvComposes(old(Cell2(buf[..], i)), a, b, c);
      ConvKeepsValue(old(Cell2(buf[..], i)), a, c);
    }
  }
}
