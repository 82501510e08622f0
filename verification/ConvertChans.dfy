/** Channel count conversion. Every loop may run with input and output the same array;
    the loop directions make the result the one for separate arrays, except 2 to 3.
    Samples are integers of one width; a frame is one sample per channel. */
module ConvertChans {
  import opened CInt
  import opened Frames

  // ---------- what the conversions mean ----------

  /** The sum of the first c samples of frame f. */
  function FrameSum(s: seq<int>, f: nat, n: nat, c: nat): int
    requires At(f, n, 0) + c <= |s|
  {
    if c == 0 then 0 else FrameSum(s, f, n, c - 1) + s[At(f, n, 0) + c - 1]
  }

  /** The average of frame f as C computes it, rounded toward zero. */
  function Mean(s: seq<int>, f: nat, n: nat): int
    requires n > 0 && At(f, n, 0) + n <= |s|
  {
    TruncDiv(FrameSum(s, f, n, n), n)
  }

  function Average(l: int, r: int): int {
    TruncDiv(l + r, 2)
  }

  /** Channel c when left and right go to 3, 4, 5 or 6 channels: left, right, then for 4
      both again, else their average (twice for 6) and, from 5 on, both again. */
  function Tap(l: int, r: int, to: nat, c: nat): int {
    var m := Average(l, r);
    if c == 0 then l
    else if c == 1 then r
    else if c == 2 then (if to == 4 then l else m)
    else if c == 3 then (if to == 4 then r else if to == 5 then l else m)
    else if c == 4 then (if to == 5 then r else l)
    else r
  }

  /** Frame f of out is stereo frame f of s on to channels. */
  ghost predicate Shows(out: array<int>, s: seq<int>, f: nat, to: nat)
    reads out
  {
    && 2 * f + 2 <= |s| && At(f, to, 0) + to <= out.Length
    && forall c: nat :: c < to ==> out[At(f, to, c)] == Tap(s[2 * f], s[2 * f + 1], to, c)
  }

  /** The channels of a frame shown: left and right in front, the centre their mean (twice
      for 6), and behind, from 4 on, left and right again. */
  lemma ChannelsShown(out: array<int>, s: seq<int>, f: nat, to: nat)
    requires 3 <= to <= 6 && Shows(out, s, f, to)
    ensures At(f, to, 0) + to <= out.Length
    ensures out[At(f, to, 0)] == s[2 * f] && out[At(f, to, 0) + 1] == s[2 * f + 1]
    ensures to != 4 ==> Rounded(out[At(f, to, 0) + 2], s[2 * f] + s[2 * f + 1], 2)
    ensures to == 6 ==> Rounded(out[At(f, to, 0) + 3], s[2 * f] + s[2 * f + 1], 2)
    ensures to >= 4 ==> out[At(f, to, 0) + to - 2] == s[2 * f] && out[At(f, to, 0) + to - 1] == s[2 * f + 1]
  {
    hide At, Average, Rounded, Shows;
    ChannelShown(out, s, f, to, 0);
    ChannelShown(out, s, f, to, 1);
    ChannelShown(out, s, f, to, 2);
    ChannelShown(out, s, f, to, to - 1);
    ChannelShown(out, s, f, to, to - 2);
    ChannelShown(out, s, f, to, to - 3);
    AverageRounds(s[2 * f], s[2 * f + 1]);
  }

  lemma ChannelShown(out: array<int>, s: seq<int>, f: nat, to: nat, c: nat)
    requires Shows(out, s, f, to) && c < to
    ensures 2 * f + 2 <= |s| && At(f, to, 0) + to <= out.Length
    ensures out[At(f, to, 0) + c] == Tap(s[2 * f], s[2 * f + 1], to, c)
  {
    AtOffset(to);
    assert At(f, to, c) == At(f, to, 0) + c;
  }

  /** What the code computes: the sum is kept in 32 bits. */
  function WrappedMean(s: seq<int>, f: nat, n: nat): int
    requires n > 0 && At(f, n, 0) + n <= |s|
  {
    TruncDiv(ToInt32(FrameSum(s, f, n, n)), n)
  }

  ghost predicate SumFits(s: seq<int>, f: nat, n: nat)
    requires At(f, n, 0) + n <= |s|
  {
    -0x8000_0000 <= FrameSum(s, f, n, n) < 0x8000_0000
  }

  // ---------- 1 to n ----------

  /** The inner loop: sample i goes to all the to channels of the frame at offset at. */
  method Repeat<T>(out: array<T>, inp: array<T>, i: nat, at: nat, to: nat)
    requires i < inp.Length && (to > 0 ==> i <= at) && at + to <= out.Length
    modifies out
    ensures forall k :: at <= k < at + to ==> out[k] == old(inp[i])
    ensures forall k :: 0 <= k < at || at + to <= k < out.Length ==> out[k] == old(out[k])
  {
    var c := to - 1;
    while c >= 0
      invariant -1 <= c < to
      invariant inp[i] == old(inp[i])
      invariant forall k :: at + c < k < at + to ==> out[k] == old(inp[i])
      invariant forall k :: 0 <= k <= at + c || at + to <= k < out.Length ==> out[k] == old(out[k])
    {
      out[at + c] := inp[i];
      c := c - 1;
    }
  }

  /** roar_conv_chans_1ton8, 16 and 32: every channel of frame f gets input sample f. */
  method Chans1toN<T>(out: array<T>, inp: array<T>, samples: nat, to: nat)
    requires samples <= inp.Length && At(samples, to, 0) <= out.Length
    modifies out
    ensures forall f: nat, c: nat :: f < samples && c < to ==> At(f, to, c) < At(samples, to, 0)
    ensures forall f: nat, c: nat :: f < samples && c < to ==> out[At(f, to, c)] == old(inp[f])
    ensures forall k :: At(samples, to, 0) <= k < out.Length ==> out[k] == old(out[k])
  {
    hide At;
    Around(samples, to);
    AtOffset(to);
    var i := samples - 1;
    while i >= 0
      invariant -1 <= i < samples
      invariant forall k :: 0 <= k <= i ==> inp[k] == old(inp[k])
      invariant forall f: nat, c: nat :: i < f < samples && c < to ==> out[At(f, to, c)] == old(inp[f])
      invariant forall k :: At(samples, to, 0) <= k < out.Length ==> out[k] == old(out[k])
    {
      Start(i, to);
      Around(i, to);
      if i + 1 < samples {
        Later(i, samples, to);
      }
      Repeat(out, inp, i, At(i, to, 0), to);
      i := i - 1;
    }
  }

  /** roar_conv_chans_1to28 and 1to216 */
  method Chans1to2<T>(out: array<T>, inp: array<T>, samples: nat)
    requires samples <= inp.Length && 2 * samples <= out.Length
    modifies out
    ensures forall f :: 0 <= f < samples ==> out[2 * f] == old(inp[f]) && out[2 * f + 1] == old(inp[f])
    ensures forall k :: 2 * samples <= k < out.Length ==> out[k] == old(out[k])
  {
    var h := samples - 1;
    var i := h * 2;
    while i >= 0
      invariant i == 2 * h && -1 <= h < samples
      invariant forall k :: 0 <= k <= h ==> inp[k] == old(inp[k])
      invariant forall f :: h < f < samples ==> out[2 * f] == old(inp[f]) && out[2 * f + 1] == old(inp[f])
      invariant forall k :: 2 * samples <= k < out.Length ==> out[k] == old(out[k])
    {
      out[i + 0] := inp[h];
      out[i + 1] := inp[h];
      i := i - 2;
      h := h - 1;
    }
  }

  // ---------- n to 1 ----------

  /** The inner loop of roar_conv_chans_nto1*: the sum of one frame, in a 32-bit accumulator
      that wraps. */
  method AddUp(inp: array<int>, f: nat, at: nat, from: nat, ghost s: seq<int>) returns (sum: int32)
    requires at == At(f, from, 0) && at + from <= inp.Length == |s|
    requires forall k :: at <= k < inp.Length ==> inp[k] == s[k]
    ensures sum == ToInt32(FrameSum(s, f, from, from))
  {
    hide At, ToInt32;
    sum := ToInt32(0);
    var c := 0;
    while c < from
      invariant 0 <= c <= from
      invariant sum == ToInt32(FrameSum(s, f, from, c))
    {
      assert FrameSum(s, f, from, c + 1) == FrameSum(s, f, from, c) + s[at + c];
      ToInt32Add(FrameSum(s, f, from, c), inp[at + c]);
      sum := ToInt32(sum + inp[at + c]);
      c := c + 1;
    }
  }

  /** roar_conv_chans_nto18, 16 and 32. */
  method ChansNto1(out: array<int>, inp: array<int>, samples: nat, from: nat)
    requires from > 0 && samples <= inp.Length && samples / from <= out.Length
    modifies out
    ensures forall f: nat :: f < samples / from ==> At(f, from, 0) + from <= inp.Length
    ensures forall f: nat :: f < samples / from ==> out[f] == WrappedMean(old(inp[..]), f, from)
    ensures forall f: nat :: f < samples / from && SumFits(old(inp[..]), f, from) ==>
              Rounded(out[f], FrameSum(old(inp[..]), f, from, from), from)
    ensures forall k :: samples / from <= k < out.Length ==> out[k] == old(out[k])
  {
    hide At, FrameSum, ToInt32, Rounded;
    WholeFrames(samples, from);
    ghost var s := inp[..];
    var frames := samples / from;
    Around(frames, from);
    forall f: nat | f < frames ensures At(f, from, 0) + from <= At(frames, from, 0) {
      Later(f, frames, from);
    }
    var i: nat := 0;
    Start(0, from);
    while i < frames
      invariant 0 <= i <= frames
      invariant forall k :: At(i, from, 0) <= k < inp.Length ==> inp[k] == s[k]
      invariant forall f: nat :: f < i ==> out[f] == WrappedMean(s, f, from)
      invariant forall k :: frames <= k < out.Length ==> out[k] == old(out[k])
    {
      Start(i, from);
      var sum := AddUp(inp, i, At(i, from, 0), from, s);
      out[i] := TruncDiv(sum, from);
      i := i + 1;
    }
    forall f: nat | f < frames && SumFits(s, f, from) ensures Rounded(out[f], FrameSum(s, f, from, from), from) {
      Unwrapped(FrameSum(s, f, from, from));
      TruncDivRounds(FrameSum(s, f, from, from), from);
    }
  }

  lemma Unwrapped(x: int)
    requires -0x8000_0000 <= x < 0x8000_0000
    ensures ToInt32(x) == x
  {
  }

  /** A change of any one sample of a frame changes the sum by as much. */
  lemma {:induction false} EverySampleCounts(s: seq<int>, f: nat, n: nat, c: nat, d: int)
    requires c < n && At(f, n, 0) + n <= |s|
    ensures At(f, n, c) < |s|
    ensures FrameSum(s[At(f, n, c) := s[At(f, n, c)] + d], f, n, n) == FrameSum(s, f, n, n) + d
  {
    hide At;
    AtOffset(n);
    PartChanged(s, s[At(f, n, c) := s[At(f, n, c)] + d], f, n, c, d, n);
  }

  lemma {:induction false} PartChanged(s: seq<int>, t: seq<int>, f: nat, n: nat, c: nat, d: int, k: nat)
    requires At(f, n, 0) + k <= |s| == |t|
    requires forall j :: At(f, n, 0) <= j < At(f, n, 0) + k ==> t[j] == s[j] + if j == At(f, n, 0) + c then d else 0
    ensures FrameSum(t, f, n, k) == FrameSum(s, f, n, k) + if c < k then d else 0
  {
    hide At;
    if k > 0 {
      PartChanged(s, t, f, n, c, d, k - 1);
    }
  }

  /** Samples outside a frame do not count. */
  lemma OthersDoNotCount(s: seq<int>, t: seq<int>, f: nat, n: nat)
    requires At(f, n, 0) + n <= |s| == |t|
    requires forall j :: At(f, n, 0) <= j < At(f, n, 0) + n ==> t[j] == s[j]
    ensures FrameSum(t, f, n, n) == FrameSum(s, f, n, n)
  {
    PartChanged(s, t, f, n, n, 0, n);
  }

  lemma SilenceIsZero(s: seq<int>, f: nat, n: nat)
    requires At(f, n, 0) + n <= |s| && forall j :: At(f, n, 0) <= j < At(f, n, 0) + n ==> s[j] == 0
    ensures FrameSum(s, f, n, n) == 0
  {
    SumOfEqual(s, f, n, n, 0);
  }

  /** The code's average of a frame is the average exactly if the sum of the frame fits 32 bits. */
  lemma MeanIffFits(s: seq<int>, f: nat, n: nat)
    requires 0 < n < 0x8000_0000 && At(f, n, 0) + n <= |s|
    ensures WrappedMean(s, f, n) == Mean(s, f, n) <==> SumFits(s, f, n)
  {
    hide FrameSum;
    var x := FrameSum(s, f, n, n);
    Remainder(x, n);
    Remainder(ToInt32(x), n);
  }

  /** What truncated division leaves is less than the divisor. */
  lemma Remainder(x: int, n: nat)
    requires n > 0
    ensures 0 < x - n * TruncDiv(x, n) + n && x - n * TruncDiv(x, n) < n
  {
    if x >= 0 {
      assert x == n * (x / n) + x % n;
    } else {
      assert -x == n * ((-x) / n) + (-x) % n;
      assert n * TruncDiv(x, n) == -(n * ((-x) / n));
    }
  }

  /** roar_conv_chans_2to18 and 2to116 */
  method Chans2to1(out: array<int>, inp: array<int>, samples: nat)
    requires samples + samples % 2 <= inp.Length && (samples + 1) / 2 <= out.Length
    modifies out
    ensures forall h :: 0 <= h < (samples + 1) / 2 ==> out[h] == Average(old(inp[2 * h]), old(inp[2 * h + 1]))
    ensures forall h :: 0 <= h < (samples + 1) / 2 ==> Rounded(out[h], old(inp[2 * h]) + old(inp[2 * h + 1]), 2)
    ensures forall k :: (samples + 1) / 2 <= k < out.Length ==> out[k] == old(out[k])
  {
    hide Rounded, TruncDiv;
    var h, i := 0, 0;
    while i < samples
      invariant i == 2 * h && h <= (samples + 1) / 2
      invariant forall k :: i <= k < inp.Length ==> inp[k] == old(inp[k])
      invariant forall g :: 0 <= g < h ==> out[g] == Average(old(inp[2 * g]), old(inp[2 * g + 1]))
      invariant forall k :: (samples + 1) / 2 <= k < out.Length ==> out[k] == old(out[k])
    {
      out[h] := TruncDiv(inp[i + 0] + inp[i + 1], 2);
      i := i + 2;
      h := h + 1;
    }
    forall g | 0 <= g < h ensures Rounded(out[g], old(inp[2 * g]) + old(inp[2 * g + 1]), 2) {
      AverageRounds(old(inp[2 * g]), old(inp[2 * g + 1]));
    }
  }

  lemma AverageRounds(l: int, r: int)
    ensures Rounded(Average(l, r), l + r, 2)
  {
    TruncDivRounds(l + r, 2);
  }

  // ---------- 2 to n ----------

  /** Sample c of a frame made from l and r when the memory written starts gap samples behind
      l. In shared memory the first writes destroy what is read later if l lies one before the
      frame, or the frame one before l; else the frame is what it would be in other memory. */
  function Seen(l: int, r: int, to: nat, c: nat, shared: bool, gap: int): int {
    if shared && gap == 1 then l
    else if shared && gap == -1 then (if c == 0 then l else r)
    else Tap(l, r, to, c)
  }

  /** How far frame f lies behind the samples it is made from: a loop over an odd number of
      samples takes them one off. */
  function Gap(f: nat, to: nat, odd: nat): int {
    At(f, to, 0) - 2 * f - odd
  }

  /** What the downward loops leave: every frame, from samples one off if their number is odd. */
  ghost predicate Left(m: seq<int>, s: seq<int>, f: nat, frames: nat, to: nat, odd: nat, shared: bool)
    requires 2 * frames + odd <= |s| && At(frames, to, 0) <= |m|
  {
    forall g: nat, c: nat :: f <= g < frames && c < to ==>
      At(g, to, c) < At(frames, to, 0)
      && m[At(g, to, c)] == Seen(s[2 * g + odd], s[2 * g + odd + 1], to, c, shared, Gap(g, to, odd))
  }

  /** From place h on lies the frame made from l and r, and nothing else is new. */
  ghost predicate Framed(m: seq<int>, was: seq<int>, h: nat, l: int, r: int, to: nat, shared: bool, gap: int) {
    && |m| == |was| && h + to <= |m|
    && (forall k :: h <= k < h + to ==> m[k] == Seen(l, r, to, k - h, shared, gap))
    && (forall k :: 0 <= k < h || h + to <= k < |m| ==> m[k] == was[k])
  }

  /** What a downward loop needs to know at frame f. */
  lemma StepDown(f: nat, frames: nat, to: nat)
    requires f < frames && to >= 3
    ensures At(f, to, 0) + to <= At(frames, to, 0)
    ensures At(f, to, 0) >= 3 * f
    ensures f > 0 ==> At(f, to, 0) == At(f - 1, to, 0) + to
    ensures forall g: nat, c: nat {:trigger At(g, to, c)} :: g > f ==> At(g, to, c) >= At(f, to, 0) + to
    ensures forall c: nat {:trigger At(f, to, c)} :: At(f, to, c) == At(f, to, 0) + c
  {
    Later(f, frames, to);
    Around(f, to);
    AtMost(3, to, f);
    AtOffset(to);
  }

  method Frame2to3(out: array<int>, inp: array<int>, i: nat, h: nat)
    requires i + 2 <= inp.Length && h + 3 <= out.Length && (out == inp ==> h >= i - 1)
    modifies out
    ensures Framed(out[..], old(out[..]), h, old(inp[i]), old(inp[i + 1]), 3, out == inp, h - i)
  {
    out[h + 0] := inp[i + 0];
    out[h + 1] := inp[i + 1];
    out[h + 2] := TruncDiv(inp[i + 0] + inp[i + 1], 2);
  }

  method Frame2to4(out: array<int>, inp: array<int>, i: nat, h: nat)
    requires i + 2 <= inp.Length && h + 4 <= out.Length && (out == inp ==> h >= i - 1)
    modifies out
    ensures Framed(out[..], old(out[..]), h, old(inp[i]), old(inp[i + 1]), 4, out == inp, h - i)
  {
    out[h + 0] := inp[i + 0];
    out[h + 1] := inp[i + 1];
    out[h + 2] := inp[i + 0];
    out[h + 3] := inp[i + 1];
  }

  method Frame2to5(out: array<int>, inp: array<int>, i: nat, h: nat)
    requires i + 2 <= inp.Length && h + 5 <= out.Length && (out == inp ==> h >= i - 1)
    modifies out
    ensures Framed(out[..], old(out[..]), h, old(inp[i]), old(inp[i + 1]), 5, out == inp, h - i)
  {
    out[h + 0] := inp[i + 0];
    out[h + 1] := inp[i + 1];
    out[h + 2] := TruncDiv(inp[i + 0] + inp[i + 1], 2);
    out[h + 3] := inp[i + 0];
    out[h + 4] := inp[i + 1];
  }

  method Frame2to6(out: array<int>, inp: array<int>, i: nat, h: nat)
    requires i + 2 <= inp.Length && h + 6 <= out.Length && (out == inp ==> h >= i - 1)
    modifies out
    ensures Framed(out[..], old(out[..]), h, old(inp[i]), old(inp[i + 1]), 6, out == inp, h - i)
  {
    out[h + 0] := inp[i + 0];
    out[h + 1] := inp[i + 1];
    out[h + 2] := TruncDiv(inp[i + 0] + inp[i + 1], 2);
    out[h + 3] := out[h + 2];
    out[h + 4] := inp[i + 0];
    out[h + 5] := inp[i + 1];
  }

  /** The loop bodies. */
  method WriteFrame(out: array<int>, inp: array<int>, i: nat, h: nat, to: nat)
    requires 3 <= to <= 6 && i + 2 <= inp.Length && h + to <= out.Length && (out == inp ==> h >= i - 1)
    modifies out
    ensures Framed(out[..], old(out[..]), h, old(inp[i]), old(inp[i + 1]), to, out == inp, h - i)
    ensures forall k :: 0 <= k < h || h + to <= k < out.Length ==> out[k] == old(out[k])
  {
    hide Seen;
    match to {
      case 3 => Frame2to3(out, inp, i, h);
      case 4 => Frame2to4(out, inp, i, h);
      case 5 => Frame2to5(out, inp, i, h);
      case _ => Frame2to6(out, inp, i, h);
    }
  }

  /** The loop the four functions share, which goes downward in steps of two and of to. */
  method Loop2toN(out: array<int>, inp: array<int>, samples: nat, to: nat, ghost frames: nat, ghost odd: nat)
    requires 3 <= to <= 6
    requires samples == 2 * frames + odd <= inp.Length && odd < 2 && At(frames, to, 0) <= out.Length
    modifies out
    ensures Left(out[..], old(inp[..]), 0, frames, to, odd, out == inp)
    ensures forall k :: At(frames, to, 0) <= k < out.Length ==> out[k] == old(out[k])
  {
    hide At, Seen, Left, TruncDiv, Framed;
    ghost var s := inp[..];
    ghost var p: nat := frames;
    var i := samples - 2;
    var h := TruncDiv(i, 2) * to;
    if frames > 0 {
      HalfOf(samples, frames, to, odd);
    }
    NoneLeft(out[..], s, frames, to, odd, out == inp);
    while i >= 0
      invariant p <= frames && i == 2 * p - 2 + odd
      invariant p > 0 ==> h == At(p - 1, to, 0)
      invariant p > 0 ==> forall k :: 0 <= k < i + 2 ==> inp[k] == s[k]
      invariant Left(out[..], s, p, frames, to, odd, out == inp)
      invariant forall k :: At(frames, to, 0) <= k < out.Length ==> out[k] == old(out[k])
    {
      StepDown(p - 1, frames, to);
      ghost var was, l, r := out[..], inp[i], inp[i + 1];
      WriteFrame(out, inp, i, h, to);
      OneMoreLeft(out[..], s, was, p - 1, frames, to, odd, out == inp, l, r, h, h - i);
      p := p - 1;
      i := i - 2;
      h := h - to;
    }
  }

  /** roar_conv_chans_2to316. In place the first write of frame 1 destroys its right sample,
      so with whole frames the result is right exactly when the memory is not shared, or there
      is at most one frame, or frame 1 has equal samples. */
  method Chans2to3(out: array<int>, inp: array<int>, samples: nat)
    requires samples <= inp.Length && At(samples / 2, 3, 0) <= out.Length
    modifies out
    ensures Left(out[..], old(inp[..]), 0, samples / 2, 3, samples % 2, out == inp)
    ensures samples % 2 == 0 ==>
              forall f: nat :: f < samples / 2 && (out != inp || f != 1) ==> Shows(out, old(inp[..]), f, 3)
    ensures samples % 2 == 0 ==>
              ((forall f: nat :: f < samples / 2 ==> Shows(out, old(inp[..]), f, 3))
               <==> (out != inp || samples < 4 || old(inp[2]) == old(inp[3])))
    ensures samples % 2 == 1 ==>
              ((forall f: nat :: f < samples / 2 ==> Shows(out, old(inp[..]), f, 3))
               <==> AllEqual(old(inp[..]), samples / 2, 3, out == inp))
    ensures forall k :: At(samples / 2, 3, 0) <= k < out.Length ==> out[k] == old(out[k])
  {
    hide At, Left, Shows, AllEqual;
    ghost var s := inp[..];
    Loop2toN(out, inp, samples, 3, samples / 2, samples % 2);
    if samples % 2 == 0 {
      EvenShown(out, s, samples / 2, 3, 0, out == inp);
      if out == inp && samples >= 4 {
        BrokenFrame(out, s, samples / 2);
      }
    } else {
      OddShown(out, s, samples / 2, 3, out == inp);
    }
  }

  /** roar_conv_chans_2to416: with whole frames every frame is right, also in place. */
  method Chans2to4(out: array<int>, inp: array<int>, samples: nat)
    requires samples <= inp.Length && At(samples / 2, 4, 0) <= out.Length
    modifies out
    ensures Left(out[..], old(inp[..]), 0, samples / 2, 4, samples % 2, out == inp)
    ensures samples % 2 == 0 ==> forall f: nat :: f < samples / 2 ==> Shows(out, old(inp[..]), f, 4)
    ensures samples % 2 == 1 ==>
              ((forall f: nat :: f < samples / 2 ==> Shows(out, old(inp[..]), f, 4))
               <==> AllEqual(old(inp[..]), samples / 2, 4, out == inp))
    ensures forall k :: At(samples / 2, 4, 0) <= k < out.Length ==> out[k] == old(out[k])
  {
    hide At, Left, Shows, AllEqual;
    ghost var s := inp[..];
    Loop2toN(out, inp, samples, 4, samples / 2, samples % 2);
    if samples % 2 == 0 {
      EvenShown(out, s, samples / 2, 4, 0, out == inp);
    } else {
      OddShown(out, s, samples / 2, 4, out == inp);
    }
  }

  /** roar_conv_chans_2to516: with whole frames every frame is right, also in place. */
  method Chans2to5(out: array<int>, inp: array<int>, samples: nat)
    requires samples <= inp.Length && At(samples / 2, 5, 0) <= out.Length
    modifies out
    ensures Left(out[..], old(inp[..]), 0, samples / 2, 5, samples % 2, out == inp)
    ensures samples % 2 == 0 ==> forall f: nat :: f < samples / 2 ==> Shows(out, old(inp[..]), f, 5)
    ensures samples % 2 == 1 ==>
              ((forall f: nat :: f < samples / 2 ==> Shows(out, old(inp[..]), f, 5))
               <==> AllEqual(old(inp[..]), samples / 2, 5, out == inp))
    ensures forall k :: At(samples / 2, 5, 0) <= k < out.Length ==> out[k] == old(out[k])
  {
    hide At, Left, Shows, AllEqual;
    ghost var s := inp[..];
    Loop2toN(out, inp, samples, 5, samples / 2, samples % 2);
    if samples % 2 == 0 {
      EvenShown(out, s, samples / 2, 5, 0, out == inp);
    } else {
      OddShown(out, s, samples / 2, 5, out == inp);
    }
  }

  /** roar_conv_chans_2to616: with whole frames every frame is right, also in place. */
  method Chans2to6(out: array<int>, inp: array<int>, samples: nat)
    requires samples <= inp.Length && At(samples / 2, 6, 0) <= out.Length
    modifies out
    ensures Left(out[..], old(inp[..]), 0, samples / 2, 6, samples % 2, out == inp)
    ensures samples % 2 == 0 ==> forall f: nat :: f < samples / 2 ==> Shows(out, old(inp[..]), f, 6)
    ensures samples % 2 == 1 ==>
              ((forall f: nat :: f < samples / 2 ==> Shows(out, old(inp[..]), f, 6))
               <==> AllEqual(old(inp[..]), samples / 2, 6, out == inp))
    ensures forall k :: At(samples / 2, 6, 0) <= k < out.Length ==> out[k] == old(out[k])
  {
    hide At, Left, Shows, AllEqual;
    ghost var s := inp[..];
    Loop2toN(out, inp, samples, 6, samples / 2, samples % 2);
    if samples % 2 == 0 {
      EvenShown(out, s, samples / 2, 6, 0, out == inp);
    } else {
      OddShown(out, s, samples / 2, 6, out == inp);
    }
  }

  lemma HalfOf(samples: nat, frames: nat, to: nat, odd: nat)
    requires samples == 2 * frames + odd && odd < 2 && frames > 0
    ensures TruncDiv(samples - 2, 2) * to == At(frames - 1, to, 0)
  {
    assert TruncDiv(samples - 2, 2) == frames - 1;
  }

  lemma NoneLeft(m: seq<int>, s: seq<int>, frames: nat, to: nat, odd: nat, shared: bool)
    requires 2 * frames + odd <= |s| && At(frames, to, 0) <= |m|
    ensures Left(m, s, frames, frames, to, odd, shared)
  {
  }

  /** was is the memory before frame f was written. */
  lemma OneMoreLeft(m: seq<int>, s: seq<int>, was: seq<int>, f: nat, frames: nat, to: nat, odd: nat, shared: bool,
                    l: int, r: int, h: nat, gap: int)
    requires f < frames && to >= 3 && 2 * frames + odd <= |s| && At(frames, to, 0) <= |m| == |was|
    requires Left(was, s, f + 1, frames, to, odd, shared)
    requires l == s[2 * f + odd] && r == s[2 * f + odd + 1] && h == At(f, to, 0) && gap == Gap(f, to, odd)
    requires Framed(m, was, h, l, r, to, shared, gap)
    ensures Left(m, s, f, frames, to, odd, shared)
  {
    hide At, Seen, Gap;
    StepDown(f, frames, to);
  }

  /** The samples of one frame. */
  lemma LeftAt(m: seq<int>, s: seq<int>, f: nat, frames: nat, to: nat, odd: nat, shared: bool, c: nat)
    requires f < frames && c < to && to >= 3 && 2 * frames + odd <= |s| && At(frames, to, 0) <= |m|
    requires Left(m, s, 0, frames, to, odd, shared)
    ensures At(f, to, 0) + to <= |m|
    ensures m[At(f, to, c)] == Seen(s[2 * f + odd], s[2 * f + odd + 1], to, c, shared, Gap(f, to, odd))
  {
    hide At, Seen, Gap;
    StepDown(f, frames, to);
  }

  /** With whole frames, every frame whose samples are not overwritten early is right. */
  lemma EvenShown(out: array<int>, s: seq<int>, frames: nat, to: nat, odd: nat, shared: bool)
    requires to >= 3 && 2 * frames + odd <= |s| && At(frames, to, 0) <= out.Length
    requires Left(out[..], s, 0, frames, to, odd, shared)
    ensures odd == 0 ==> forall f: nat :: f < frames && !(shared && to == 3 && f == 1) ==> Shows(out, s, f, to)
  {
    hide At, Left, Gap, Tap;
    forall f: nat | odd == 0 && f < frames && !(shared && to == 3 && f == 1) ensures Shows(out, s, f, to) {
      GapOfEven(f, to);
      StepDown(f, frames, to);
      forall c: nat | c < to ensures out[At(f, to, c)] == Tap(s[2 * f], s[2 * f + 1], to, c) {
        LeftAt(out[..], s, f, frames, to, odd, shared, c);
      }
    }
  }

  lemma GapOfEven(f: nat, to: nat)
    requires to >= 3
    ensures Gap(f, to, 0) != -1 && (Gap(f, to, 0) == 1 <==> to == 3 && f == 1)
  {
    AtMost(3, to, f);
    if to > 3 {
      AtMost(4, to, f);
    }
  }

  lemma GapOfOdd(f: nat, to: nat)
    requires to >= 3
    ensures Gap(f, to, 1) == -1 <==> f == 0
    ensures Gap(f, to, 1) == 1 <==> (to == 3 && f == 2) || (to == 4 && f == 1)
  {
    if to <= 5 {
      assert f * to == if to == 3 then 3 * f else if to == 4 then 4 * f else 5 * f;
    } else {
      AtMost(6, to, f);
    }
  }

  /** In one memory the frame whose gap is 1 never shows its right sample, so that one need not
      be equal to the one before. */
  predicate Unseen(to: nat, k: nat, shared: bool) {
    shared && ((to == 3 && k == 5) || (to == 4 && k == 3))
  }

  /** The samples are all equal, but for the one that is never seen. */
  ghost predicate AllEqual(s: seq<int>, frames: nat, to: nat, shared: bool)
    requires 2 * frames + 1 <= |s|
  {
    forall k: nat :: k < 2 * frames && !Unseen(to, k, shared) ==> s[k] == s[k + 1]
  }

  /** An odd number of samples gives the stereo frames exactly if its samples are equal. */
  lemma OddShown(out: array<int>, s: seq<int>, frames: nat, to: nat, shared: bool)
    requires to >= 3 && 2 * frames + 1 <= |s| && At(frames, to, 0) <= out.Length
    requires Left(out[..], s, 0, frames, to, 1, shared)
    ensures (forall f: nat :: f < frames ==> Shows(out, s, f, to)) <==> AllEqual(s, frames, to, shared)
  {
    hide At, Left, Gap, Shows, Unseen;
    forall f: nat | f < frames
      ensures Shows(out, s, f, to)
              <==> (Unseen(to, 2 * f, shared) || s[2 * f] == s[2 * f + 1])
                   && (Unseen(to, 2 * f + 1, shared) || s[2 * f + 1] == s[2 * f + 2])
    {
      OddFrame(out, s, f, frames, to, shared);
    }
    if forall f: nat :: f < frames ==> Shows(out, s, f, to) {
      forall k: nat | k < 2 * frames && !Unseen(to, k, shared) ensures s[k] == s[k + 1] {
        assert Shows(out, s, k / 2, to);
        assert k == 2 * (k / 2) || k == 2 * (k / 2) + 1;
      }
    }
  }

  lemma OddFrame(out: array<int>, s: seq<int>, f: nat, frames: nat, to: nat, shared: bool)
    requires to >= 3 && 2 * frames + 1 <= |s| && At(frames, to, 0) <= out.Length && f < frames
    requires Left(out[..], s, 0, frames, to, 1, shared)
    ensures Shows(out, s, f, to)
            <==> (Unseen(to, 2 * f, shared) || s[2 * f] == s[2 * f + 1])
                 && (Unseen(to, 2 * f + 1, shared) || s[2 * f + 1] == s[2 * f + 2])
  {
    hide At, Left, Gap;
    StepDown(f, frames, to);
    GapOfOdd(f, to);
    var l, r, gap := s[2 * f + 1], s[2 * f + 2], Gap(f, to, 1);
    forall c: nat | c < to ensures out[At(f, to, c)] == Seen(l, r, to, c, shared, gap) {
      LeftAt(out[..], s, f, frames, to, 1, shared, c);
    }
    assert out[At(f, to, 0)] == l;
    assert out[At(f, to, 1)] == if shared && gap == 1 then l else r;
  }

  lemma BrokenFrame(out: array<int>, s: seq<int>, frames: nat)
    requires 2 <= frames && 2 * frames <= |s| && At(frames, 3, 0) <= out.Length
    requires Left(out[..], s, 0, frames, 3, 0, true)
    ensures Shows(out, s, 1, 3) <==> s[2] == s[3]
  {
    hide Left;
    assert At(1, 3, 0) == 3 && Gap(1, 3, 0) == 1;
    forall c: nat | c < 3 ensures out[At(1, 3, c)] == s[2] {
      LeftAt(out[..], s, 1, frames, 3, 0, true, c);
    }
    assert At(1, 3, 1) == 4;
  }

  // ---------- there and back ----------

  lemma {:induction false} SumOfEqual(s: seq<int>, f: nat, n: nat, c: nat, v: int)
    requires At(f, n, 0) + c <= |s|
    requires forall k :: At(f, n, 0) <= k < At(f, n, 0) + c ==> s[k] == v
    ensures FrameSum(s, f, n, c) == c * v
  {
    if c > 0 {
      SumOfEqual(s, f, n, c - 1, v);
    }
  }

  lemma MeanOfEqual(n: nat, v: int)
    requires n > 0
    ensures TruncDiv(n * v, n) == v
  {
    if v >= 0 {
      DivExact(n, v);
    } else {
      DivExact(n, -v);
      assert -(n * v) == n * -v;
    }
  }

  lemma DivExact(n: nat, v: nat)
    requires n > 0
    ensures (n * v) / n == v && n * v >= 0
  {
    var q := (n * v) / n;
    assert n * v == q * n + (n * v) % n;
    if q < v {
      Later(q, v, n);
      assert false;
    } else if q > v {
      Later(v, q, n);
      assert false;
    }
  }

  lemma TimesBound(c: nat, v: int16)
    requires c <= 0x1_0000
    ensures -0x8000_0000 <= c * v < 0x8000_0000
  {
    var x: int := v;
    TimesAtMost(x, 0x7fff, c);
    TimesAtMost(-x, 0x8000, c);
  }

  lemma {:induction false} SmallSum(s: seq<int>, f: nat, n: nat, c: nat)
    requires At(f, n, 0) + c <= |s| && c <= 0x1_0000
    requires forall k :: 0 <= k < |s| ==> -0x8000 <= s[k] < 0x8000
    ensures -0x8000 * c <= FrameSum(s, f, n, c) <= 0x7fff * c
  {
    if c > 0 {
      SmallSum(s, f, n, c - 1);
    }
  }

  lemma QuotientBounds(x: int, n: nat, lo: nat, hi: nat)
    requires n > 0 && 0 <= x + lo * n && x <= hi * n
    ensures 0 <= TruncDiv(x, n) + lo && TruncDiv(x, n) <= hi
  {
    if x >= 0 {
      QuotientBelow(x, n, hi);
    } else {
      assert -x <= lo * n;
      QuotientBelow(-x, n, lo);
    }
  }

  lemma QuotientBelow(x: nat, n: nat, hi: nat)
    requires n > 0 && x <= hi * n
    ensures x / n <= hi
  {
    var q := x / n;
    assert x == q * n + x % n;
    if q > hi {
      Later(hi, q, n);
      assert false;
    }
  }

  /** The average of 16-bit samples is a 16-bit sample, so storing it loses nothing. */
  lemma MeanFits(s: seq<int>, f: nat, n: nat)
    requires 0 < n <= 0x1_0000 && At(f, n, 0) + n <= |s|
    requires forall k :: 0 <= k < |s| ==> -0x8000 <= s[k] < 0x8000
    ensures -0x8000 <= Mean(s, f, n) < 0x8000
  {
    SmallSum(s, f, n, n);
    QuotientBounds(FrameSum(s, f, n, n), n, 0x8000, 0x7fff);
  }

  /** With up to 65536 channels of 16-bit samples every sum fits. */
  lemma SmallSumsFit(s: seq<int>, f: nat, n: nat)
    requires 0 < n <= 0x1_0000 && At(f, n, 0) + n <= |s|
    requires forall k :: 0 <= k < |s| ==> -0x8000 <= s[k] < 0x8000
    ensures SumFits(s, f, n) && WrappedMean(s, f, n) == Mean(s, f, n)
  {
    hide At, FrameSum;
    SmallSum(s, f, n, n);
    MeanIffFits(s, f, n);
  }

  lemma SpreadFrame(s: seq<int>, samples: nat, n: nat, f: nat, v: int)
    requires 0 < n <= 0x1_0000 && f < samples && At(samples, n, 0) <= |s| && -0x8000 <= v < 0x8000
    requires forall c: nat :: c < n ==> At(f, n, c) < |s| && s[At(f, n, c)] == v
    ensures At(f, n, 0) + n <= |s|
    ensures WrappedMean(s, f, n) == v
  {
    hide At, FrameSum;
    Later(f, samples, n);
    AtOffset(n);
    forall k | At(f, n, 0) <= k < At(f, n, 0) + n ensures s[k] == v {
      assert At(f, n, k - At(f, n, 0)) == k;
    }
    SumOfEqual(s, f, n, n, v);
    TimesBound(n, v);
    MeanIffFits(s, f, n);
    MeanOfEqual(n, v);
  }

  /** Spreading 16-bit (or 8-bit) samples over n channels and averaging them back, all in
      the same memory, restores every sample. */
  method SpreadAndBack(buf: array<int>, samples: nat, n: nat)
    requires 0 < n <= 0x1_0000 && At(samples, n, 0) <= buf.Length && samples <= buf.Length
    requires forall k :: 0 <= k < samples ==> -0x8000 <= buf[k] < 0x8000
    modifies buf
    ensures forall f :: 0 <= f < samples ==> buf[f] == old(buf[f])
  {
    hide At, FrameSum, WrappedMean;
    ghost var was := buf[..];
    Chans1toN(buf, buf, samples, n);
    ghost var s := buf[..];
    forall f: nat | f < samples
      ensures At(f, n, 0) + n <= |s|
      ensures WrappedMean(s, f, n) == was[f]
    {
      SpreadFrame(s, samples, n, f, was[f]);
    }
    Start(samples, n);
    DivExact(n, samples);
    ChansNto1(buf, buf, samples * n, n);
  }
}
