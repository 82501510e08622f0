/** The one-pole low-pass filter on interleaved 16-bit samples, run in place. The
    coefficients are the integers the control call leaves: not negative, at most 65536
    together. */
module LowPass {
  import opened CInt
  import opened Frames

  const MAX_CHANNELS := 64

  predicate Coefficients(a: nat, b: nat) {
    a < 0x1_0000 && b < 0x1_0000 && a + b <= 0x1_0000
  }

  /** output[N] = (input[N]*a + output[N-1]*b) / 65536, rounded toward zero. */
  function Step(a: nat, b: nat, x: int, y: int): int {
    TruncDiv(x * a + y * b, 0x1_0000)
  }

  /** The filter's state after the samples of one channel, from state y. */
  function State(a: nat, b: nat, xs: seq<int>, y: int): int {
    if xs == [] then y else Step(a, b, xs[|xs| - 1], State(a, b, xs[..|xs| - 1], y))
  }

  /** The outputs for one channel: after every sample the state. */
  function Output(a: nat, b: nat, xs: seq<int>, y: int): (ys: seq<int>)
    ensures |ys| == |xs|
  {
    seq(|xs|, f requires 0 <= f < |xs| => State(a, b, xs[..f + 1], y))
  }

  /** The samples of channel c in the first frames of s. */
  function Channel(s: seq<int>, frames: nat, n: nat, c: nat): (xs: seq<int>)
    requires c < n && At(frames, n, 0) <= |s|
    ensures |xs| == frames
  {
    Around(frames, n);
    seq(frames, f requires 0 <= f < frames => s[At(f, n, c)])
  }

  predicate IsSample(x: int) {
    -0x8000 <= x < 0x8000
  }

  ghost predicate Samples(xs: seq<int>) {
    forall i :: 0 <= i < |xs| ==> IsSample(xs[i])
  }

  // ---------- one step ----------

  /** With samples and states between lo and hi, so is the next state; the accumulator stays
      within 65536 times that. */
  lemma StepBounds(a: nat, b: nat, x: int, y: int, lo: int, hi: int)
    requires a + b <= 0x1_0000 && lo <= 0 <= hi && lo <= x <= hi && lo <= y <= hi
    ensures lo * 0x1_0000 <= x * a + y * b <= hi * 0x1_0000
    ensures lo <= Step(a, b, x, y) <= hi
  {
    TimesAtMost(x, hi, a);
    TimesAtMost(y, hi, b);
    TimesAtMost(-x, -lo, a);
    TimesAtMost(-y, -lo, b);
    assert hi * a + hi * b == hi * (a + b) && (-lo) * a + (-lo) * b == (-lo) * (a + b);
    TimesAtMost(a + b, 0x1_0000, hi);
    TimesAtMost(a + b, 0x1_0000, -lo);
  }

  /** z is the weighted sum of a sample and the state before over 65536, rounded toward zero. */
  predicate Weighted(a: nat, b: nat, x: int, y: int, z: int) {
    Rounded(z, x * a + y * b, 0x1_0000)
  }

  lemma StepRounds(a: nat, b: nat, x: int, y: int)
    ensures Weighted(a, b, x, y, Step(a, b, x, y))
  {
    TruncDivRounds(x * a + y * b, 0x1_0000);
  }

  /** A silent input takes at least one off the state, toward zero. */
  lemma StepDecays(a: nat, b: nat, y: int)
    requires b < 0x1_0000
    ensures y > 0 ==> 0 <= Step(a, b, 0, y) < y
    ensures y < 0 ==> y < Step(a, b, 0, y) <= 0
    ensures y == 0 ==> Step(a, b, 0, y) == 0
  {
    if y > 0 {
      assert y * b <= y * 0xffff;
    } else if y < 0 {
      assert (-y) * b <= (-y) * 0xffff && y * b == -((-y) * b);
    }
  }

  // ---------- runs ----------

  /** The state never leaves the range of the samples, over any run. */
  lemma {:induction false} StateFits(a: nat, b: nat, xs: seq<int>, y: int)
    requires a + b <= 0x1_0000 && Samples(xs) && IsSample(y)
    ensures IsSample(State(a, b, xs, y))
  {
    if xs != [] {
      StateFits(a, b, xs[..|xs| - 1], y);
      StepBounds(a, b, xs[|xs| - 1], State(a, b, xs[..|xs| - 1], y), -0x8000, 0x7fff);
    }
  }

  /** Filtering a block and then another is filtering their concatenation. */
  lemma {:induction false} StateConcat(a: nat, b: nat, xs: seq<int>, ys: seq<int>, y: int)
    ensures State(a, b, xs + ys, y) == State(a, b, ys, State(a, b, xs, y))
  {
    if ys == [] {
      assert xs + ys == xs;
    } else {
      var n := |ys| - 1;
      StateConcat(a, b, xs, ys[..n], y);
      assert (xs + ys)[..|xs| + n] == xs + ys[..n];
    }
  }

  lemma StateInConcat(a: nat, b: nat, xs: seq<int>, ys: seq<int>, y: int, f: nat)
    requires f < |xs| + |ys|
    ensures State(a, b, (xs + ys)[..f + 1], y)
            == if f < |xs| then State(a, b, xs[..f + 1], y)
               else State(a, b, ys[..f - |xs| + 1], State(a, b, xs, y))
  {
    hide State;
    if f < |xs| {
      assert (xs + ys)[..f + 1] == xs[..f + 1];
    } else {
      assert (xs + ys)[..f + 1] == xs + ys[..f - |xs| + 1];
      StateConcat(a, b, xs, ys[..f - |xs| + 1], y);
    }
  }

  /** Filtering a block and then another outputs what filtering their concatenation does. */
  lemma OutputConcat(a: nat, b: nat, xs: seq<int>, ys: seq<int>, y: int)
    ensures Output(a, b, xs + ys, y) == Output(a, b, xs, y) + Output(a, b, ys, State(a, b, xs, y))
  {
    hide State;
    var z := State(a, b, xs, y);
    forall f: nat | f < |xs| + |ys|
      ensures Output(a, b, xs + ys, y)[f]
              == if f < |xs| then Output(a, b, xs, y)[f] else Output(a, b, ys, z)[f - |xs|]
    {
      StateInConcat(a, b, xs, ys, y, f);
    }
  }

  function Abs(x: int): nat {
    if x < 0 then -x else x
  }

  /** Silence takes at least one off the state per frame. */
  lemma {:induction false} SilenceDecays(a: nat, b: nat, xs: seq<int>, y: int)
    requires b < 0x1_0000 && forall i :: 0 <= i < |xs| ==> xs[i] == 0
    ensures Abs(State(a, b, xs, y)) <= (if Abs(y) > |xs| then Abs(y) - |xs| else 0)
  {
    hide Step;
    if xs != [] {
      var n := |xs| - 1;
      SilenceDecays(a, b, xs[..n], y);
      StepDecays(a, b, State(a, b, xs[..n], y));
    }
  }

  /** After 32768 silent frames every state is zero. */
  lemma SilenceSettles(a: nat, b: nat, xs: seq<int>, y: int)
    requires b < 0x1_0000 && IsSample(y) && |xs| >= 0x8000 && forall i :: 0 <= i < |xs| ==> xs[i] == 0
    ensures State(a, b, xs, y) == 0
  {
    SilenceDecays(a, b, xs, y);
  }

  lemma StepHeld(a: nat, b: nat, y: int)
    requires a + b == 0x1_0000
    ensures Step(a, b, y, y) == y
  {
    assert y * a + y * b == y * (a + b);
  }

  /** With weights that fill 65536, an input equal to the state holds it. */
  lemma {:induction false} StateHeld(a: nat, b: nat, xs: seq<int>, y: int)
    requires a + b == 0x1_0000 && forall i :: 0 <= i < |xs| ==> xs[i] == y
    ensures State(a, b, xs, y) == y
  {
    if xs != [] {
      StateHeld(a, b, xs[..|xs| - 1], y);
      StepHeld(a, b, y);
      hide Step;
    }
  }

  function Before(ys: seq<int>, y: int, i: nat): int
    requires i <= |ys|
  {
    if i == 0 then y else ys[i - 1]
  }

  /** Every output is weighted from its sample and the output before, the state coming before
      the first; the last one is the state left. */
  ghost predicate Follows(a: nat, b: nat, xs: seq<int>, ys: seq<int>, y: int, z: int) {
    && |ys| == |xs| && z == Before(ys, y, |ys|)
    && forall i: nat :: i < |xs| ==> Weighted(a, b, xs[i], Before(ys, y, i), ys[i])
  }

  lemma OutputFollows(a: nat, b: nat, xs: seq<int>, y: int)
    ensures Follows(a, b, xs, Output(a, b, xs, y), y, State(a, b, xs, y))
  {
    hide Step, State, Weighted;
    var ys := Output(a, b, xs, y);
    forall i: nat | i <= |xs| ensures Before(ys, y, i) == State(a, b, xs[..i], y) {
      OutputBefore(a, b, xs, y, i);
    }
    assert xs[..|xs|] == xs;
    forall i: nat | i < |xs| ensures Weighted(a, b, xs[i], Before(ys, y, i), ys[i]) {
      OutputAt(a, b, xs, y, i);
    }
  }

  lemma OutputBefore(a: nat, b: nat, xs: seq<int>, y: int, i: nat)
    requires i <= |xs|
    ensures Before(Output(a, b, xs, y), y, i) == State(a, b, xs[..i], y)
  {
    hide Step;
  }

  lemma OutputAt(a: nat, b: nat, xs: seq<int>, y: int, i: nat)
    requires i < |xs|
    ensures Weighted(a, b, xs[i], State(a, b, xs[..i], y), State(a, b, xs[..i + 1], y))
  {
    hide Step, Weighted;
    assert xs[..i + 1][..i] == xs[..i];
    StepRounds(a, b, xs[i], State(a, b, xs[..i], y));
  }

  // ---------- the filter in place ----------

  class Filter {
    var a: nat
    var b: nat
    const old_: array<int>  // self->old

    ghost predicate Valid()
      reads this, old_
    {
      && Coefficients(a, b) && old_.Length == MAX_CHANNELS
      && forall c :: 0 <= c < MAX_CHANNELS ==> IsSample(old_[c])
    }

    constructor (a: nat, b: nat)
      requires Coefficients(a, b)
      ensures Valid() && fresh(old_) && this.a == a && this.b == b
      ensures forall c :: 0 <= c < MAX_CHANNELS ==> old_[c] == 0
    {
      this.a, this.b := a, b;
      old_ := new int[MAX_CHANNELS](i => 0);
    }

    /** One frame: every channel's sample and state become the next state. The int32
        accumulator never overflows. */
    method Frame(samp: array<int>, at: nat, channels: nat)
      requires Valid() && samp != old_ && channels <= MAX_CHANNELS && at + channels <= samp.Length
      requires forall k :: at <= k < at + channels ==> IsSample(samp[k])
      modifies samp, old_
      ensures Valid()
      ensures forall c :: 0 <= c < channels ==> old_[c] == Step(a, b, old(samp[at + c]), old(old_[c]))
      ensures forall c :: channels <= c < MAX_CHANNELS ==> old_[c] == old(old_[c])
      ensures forall k :: at <= k < at + channels ==> samp[k] == old_[k - at]
      ensures forall k :: 0 <= k < at || at + channels <= k < samp.Length ==> samp[k] == old(samp[k])
    {
      hide Step;
      var c := 0;
      while c < channels
        invariant 0 <= c <= channels && Valid()
        invariant forall d :: 0 <= d < c ==> old_[d] == Step(a, b, old(samp[at + d]), old(old_[d]))
        invariant forall d :: c <= d < MAX_CHANNELS ==> old_[d] == old(old_[d])
        invariant forall k :: at <= k < at + c ==> samp[k] == old_[k - at]
        invariant forall k :: 0 <= k < at || at + c <= k < samp.Length ==> samp[k] == old(samp[k])
      {
        var s := Next(samp[at + c], old_[c]);
        samp[at + c] := s;
        old_[c] := s;
        c := c + 1;
      }
    }

    /** The accumulator and its division. */
    method Next(x: int, y: int) returns (s: int32)
      requires Coefficients(a, b) && IsSample(x) && IsSample(y)
      ensures s == Step(a, b, x, y) && IsSample(s)
      ensures Weighted(a, b, x, y, s)
    {
      StepRounds(a, b, x, y);
      StepBounds(a, b, x, y, -0x8000, 0x7fff);
      s := x * a + y * b;
      s := TruncDiv(s, 0x1_0000);
    }

    /** roardsp_lowp_calc16 on whole frames; samples behind the last one stay. */
    method Calc16(samp: array<int>, samples: nat, channels: nat) returns (r: int)
      requires Valid() && samp != old_ && channels > 0
      requires samples <= samp.Length && forall k :: 0 <= k < samp.Length ==> IsSample(samp[k])
      modifies samp, old_
      ensures Valid() && At(samples / channels, channels, 0) <= samples
      ensures r == if channels > MAX_CHANNELS then -1 else 0
      ensures r == -1 ==> samp[..] == old(samp[..]) && old_[..] == old(old_[..])
      ensures r == 0 ==> forall c: nat :: c < channels ==>
                Filtered(a, b, samples / channels, channels, c, old(samp[..]), samp[..], old(old_[c]), old_[c])
      ensures r == 0 ==> forall c: nat :: c < channels ==>
                Sounds(a, b, samples / channels, channels, c, old(samp[..]), samp[..], old(old_[c]), old_[c])
      ensures forall k :: At(samples / channels, channels, 0) <= k < samp.Length ==> samp[k] == old(samp[k])
      ensures forall c :: channels <= c < MAX_CHANNELS ==> old_[c] == old(old_[c])
    {
      hide Step, At, After, Filtered, Sounds, RunTo;
      WholeFrames(samples, channels);
      if channels > MAX_CHANNELS {
        return -1;
      }
      ghost var s, y := samp[..], old_[..];
      var frames := samples / channels;
      Around(frames, channels);
      RunFrames(samp, frames, channels, s, y);
      AllRun(samp[..], old_[..], a, b, frames, channels, s, y);
      forall c: nat | c < channels
        ensures Filtered(a, b, frames, channels, c, s, samp[..], y[c], old_[c])
        ensures Sounds(a, b, frames, channels, c, s, samp[..], y[c], old_[c])
      {
        AllAfter(a, b, frames, channels, c, s, samp[..], y[c], old_[c]);
        FilteredSounds(a, b, frames, channels, c, s, samp[..], y[c], old_[c]);
      }
      r := 0;
    }

    /** The body of the outer loop. */
    method NextFrame(samp: array<int>, i: nat, ghost frames: nat, channels: nat, ghost s: seq<int>, ghost y: seq<int>)
      requires Valid() && samp != old_ && channels <= MAX_CHANNELS == |y| && i < frames
      requires At(frames, channels, 0) <= samp.Length == |s|
      requires forall k :: 0 <= k < |s| ==> IsSample(s[k])
      requires RunTo(samp[..], old_[..], a, b, frames, channels, s, y, i)
      modifies samp, old_
      ensures Valid() && RunTo(samp[..], old_[..], a, b, frames, channels, s, y, i + 1)
    {
      hide Step, At, After, RunTo;
      ghost var m, o := samp[..], old_[..];
      RunRest(m, o, a, b, frames, channels, s, y, i);
      var at := At(i, channels, 0);
      Frame(samp, at, channels);
      RunOn(m, o, samp[..], old_[..], a, b, frames, channels, s, y, i);
    }

    /** The outer loop. */
    method RunFrames(samp: array<int>, frames: nat, channels: nat, ghost s: seq<int>, ghost y: seq<int>)
      requires Valid() && samp != old_ && channels <= MAX_CHANNELS
      requires At(frames, channels, 0) <= samp.Length && s == samp[..] && y == old_[..]
      requires forall k :: 0 <= k < samp.Length ==> IsSample(samp[k])
      modifies samp, old_
      ensures Valid() && RunTo(samp[..], old_[..], a, b, frames, channels, s, y, frames)
    {
      hide Step, At, After, RunTo;
      NotRun(a, b, frames, channels, s, y);
      for i := 0 to frames
        invariant Valid()
        invariant RunTo(samp[..], old_[..], a, b, frames, channels, s, y, i)
      {
        NextFrame(samp, i, frames, channels, s, y);
      }
    }
  }

  /** After i frames of s from the states y: the samples are m, the states o. */
  ghost predicate RunTo(m: seq<int>, o: seq<int>, a: nat, b: nat, frames: nat, n: nat, s: seq<int>, y: seq<int>, i: nat)
    requires n <= MAX_CHANNELS == |y| && At(frames, n, 0) <= |s|
  {
    && |m| == |s| && |o| == |y| && i <= frames && At(i, n, 0) <= At(frames, n, 0)
    && (forall c: nat :: c < n ==> o[c] == After(a, b, frames, n, c, s, y[c], i))
    && (forall f: nat, c: nat :: f < i && c < n ==>
          At(f, n, c) < At(i, n, 0) && m[At(f, n, c)] == After(a, b, frames, n, c, s, y[c], f + 1))
    && (forall k :: At(i, n, 0) <= k < |s| ==> m[k] == s[k])
    && (forall c :: n <= c < |y| ==> o[c] == y[c])
  }

  lemma NotRun(a: nat, b: nat, frames: nat, n: nat, s: seq<int>, y: seq<int>)
    requires n <= MAX_CHANNELS == |y| && At(frames, n, 0) <= |s|
    ensures RunTo(s, y, a, b, frames, n, s, y, 0)
  {
    forall c: nat | c < n ensures After(a, b, frames, n, c, s, y[c], 0) == y[c] {
      AfterNone(a, b, frames, n, c, s, y[c]);
    }
  }

  lemma RunRest(m: seq<int>, o: seq<int>, a: nat, b: nat, frames: nat, n: nat, s: seq<int>, y: seq<int>, i: nat)
    requires n <= MAX_CHANNELS == |y| && At(frames, n, 0) <= |s| && i < frames
    requires RunTo(m, o, a, b, frames, n, s, y, i)
    ensures |m| == |s| && At(i, n, 0) + n <= |s| && m[At(i, n, 0)..] == s[At(i, n, 0)..]
    ensures forall k :: At(i, n, 0) <= k < |s| ==> m[k] == s[k]
  {
    hide After;
    Later(i, frames, n);
  }

  /** One more frame. */
  lemma RunOn(m: seq<int>, o: seq<int>, m': seq<int>, o': seq<int>, a: nat, b: nat, frames: nat, n: nat,
              s: seq<int>, y: seq<int>, i: nat)
    requires n <= MAX_CHANNELS == |y| && At(frames, n, 0) <= |s| && i < frames
    requires RunTo(m, o, a, b, frames, n, s, y, i)
    requires |m'| == |s| && |o'| == |y| && At(i, n, 0) + n <= |s|
    requires forall c :: 0 <= c < n ==> o'[c] == Step(a, b, m[At(i, n, 0) + c], o[c])
    requires forall c :: n <= c < |y| ==> o'[c] == o[c]
    requires forall k :: At(i, n, 0) <= k < At(i, n, 0) + n ==> m'[k] == o'[k - At(i, n, 0)]
    requires forall k :: 0 <= k < At(i, n, 0) || At(i, n, 0) + n <= k < |s| ==> m'[k] == m[k]
    ensures RunTo(m', o', a, b, frames, n, s, y, i + 1)
  {
    hide Step, At, After;
    AtOffset(n);
    Start(i, n);
    Later(i, frames, n);
    forall c: nat | c < n
      ensures o'[c] == After(a, b, frames, n, c, s, y[c], i + 1)
    {
      AfterStep(a, b, frames, n, c, s, y[c], i);
    }
    forall f: nat, c: nat | f < i + 1 && c < n
      ensures At(f, n, c) < At(i + 1, n, 0) && m'[At(f, n, c)] == After(a, b, frames, n, c, s, y[c], f + 1)
    {
      if f < i {
        assert At(f, n, c) < At(i, n, 0);
      } else {
        assert At(i, n, c) == At(i, n, 0) + c;
      }
    }
  }

  lemma AllRun(m: seq<int>, o: seq<int>, a: nat, b: nat, frames: nat, n: nat, s: seq<int>, y: seq<int>)
    requires n <= MAX_CHANNELS == |y| && At(frames, n, 0) <= |s|
    requires RunTo(m, o, a, b, frames, n, s, y, frames)
    ensures |m| == |s| && |o| == |y|
    ensures forall c: nat :: c < n ==> o[c] == After(a, b, frames, n, c, s, y[c], frames)
    ensures forall f: nat, c: nat :: f < frames && c < n ==>
              At(f, n, c) < |s| && m[At(f, n, c)] == After(a, b, frames, n, c, s, y[c], f + 1)
    ensures forall k :: At(frames, n, 0) <= k < |s| ==> m[k] == s[k]
    ensures forall c :: n <= c < |y| ==> o[c] == y[c]
  {
    hide At, After;
  }

  /** Channel c went through the filter: its samples are the outputs for the old samples from
      the old state y, and z is the state left. */
  ghost predicate Filtered(a: nat, b: nat, frames: nat, n: nat, c: nat, was: seq<int>, now: seq<int>, y: int, z: int)
    requires c < n && At(frames, n, 0) <= |was| && |now| == |was|
  {
    && Channel(now, frames, n, c) == Output(a, b, Channel(was, frames, n, c), y)
    && z == State(a, b, Channel(was, frames, n, c), y)
  }

  /** The same sample by sample: channel c of every frame is weighted from what it was and from
      the channel in the frame before, the old state coming before the first. */
  ghost predicate Sounds(a: nat, b: nat, frames: nat, n: nat, c: nat, was: seq<int>, now: seq<int>, y: int, z: int)
    requires c < n && At(frames, n, 0) <= |was| && |now| == |was|
  {
    Around(frames, n);
    && (forall f: nat :: f < frames ==>
          Weighted(a, b, was[At(f, n, c)], if f == 0 then y else now[At(f - 1, n, c)], now[At(f, n, c)]))
    && z == if frames == 0 then y else now[At(frames - 1, n, c)]
  }

  lemma FilteredSounds(a: nat, b: nat, frames: nat, n: nat, c: nat, was: seq<int>, now: seq<int>, y: int, z: int)
    requires c < n && At(frames, n, 0) <= |was| && |now| == |was|
    requires Filtered(a, b, frames, n, c, was, now, y, z)
    ensures Sounds(a, b, frames, n, c, was, now, y, z)
  {
    hide Output, State, Weighted;
    Around(frames, n);
    var xs, ys := Channel(was, frames, n, c), Channel(now, frames, n, c);
    ChannelAt(was, frames, n, c);
    ChannelAt(now, frames, n, c);
    OutputFollows(a, b, xs, y);
    hide At, Channel;
    forall f: nat | f < frames
      ensures Weighted(a, b, was[At(f, n, c)], if f == 0 then y else now[At(f - 1, n, c)], now[At(f, n, c)])
    {
      assert Weighted(a, b, xs[f], Before(ys, y, f), ys[f]);
    }
  }

  lemma ChannelAt(s: seq<int>, frames: nat, n: nat, c: nat)
    requires c < n && At(frames, n, 0) <= |s|
    ensures forall f: nat :: f < frames ==> At(f, n, c) < |s| && Channel(s, frames, n, c)[f] == s[At(f, n, c)]
  {
    hide At;
    Around(frames, n);
  }

  /** The state after the first i frames. */
  ghost function After(a: nat, b: nat, frames: nat, n: nat, c: nat, s: seq<int>, y: int, i: nat): int
    requires c < n && At(frames, n, 0) <= |s| && i <= frames
  {
    State(a, b, Channel(s, frames, n, c)[..i], y)
  }

  lemma AfterStep(a: nat, b: nat, frames: nat, n: nat, c: nat, s: seq<int>, y: int, i: nat)
    requires c < n && At(frames, n, 0) <= |s| && i < frames
    ensures At(i, n, c) < |s|
    ensures After(a, b, frames, n, c, s, y, i + 1)
            == Step(a, b, s[At(i, n, c)], After(a, b, frames, n, c, s, y, i))
  {
    Around(frames, n);
    var xs := Channel(s, frames, n, c);
    assert xs[..i + 1][..i] == xs[..i];
  }

  lemma AfterNone(a: nat, b: nat, frames: nat, n: nat, c: nat, s: seq<int>, y: int)
    requires c < n && At(frames, n, 0) <= |s|
    ensures After(a, b, frames, n, c, s, y, 0) == y
  {
  }

  lemma AllAfter(a: nat, b: nat, frames: nat, n: nat, c: nat, was: seq<int>, now: seq<int>, y: int, z: int)
    requires c < n && At(frames, n, 0) <= |was| && |now| == |was|
    requires forall f: nat, d: nat :: f < frames && d < n ==> At(f, n, d) < At(frames, n, 0)
    requires forall f: nat :: f < frames ==> now[At(f, n, c)] == After(a, b, frames, n, c, was, y, f + 1)
    requires z == After(a, b, frames, n, c, was, y, frames)
    ensures Filtered(a, b, frames, n, c, was, now, y, z)
  {
    var xs := Channel(was, frames, n, c);
    assert xs[..frames] == xs;
  }

  lemma BlockStart(f: nat, g: nat, n: nat, c: nat)
    ensures At(f + g, n, c) == At(f, n, 0) + At(g, n, c)
  {
  }

  lemma ChannelConcat(s: seq<int>, t: seq<int>, f: nat, g: nat, n: nat, c: nat)
    requires c < n && |s| == At(f, n, 0) && At(g, n, 0) <= |t|
    ensures At(f + g, n, 0) <= |s + t|
    ensures Channel(s + t, f + g, n, c) == Channel(s, f, n, c) + Channel(t, g, n, c)
  {
    hide At;
    BlockStart(f, g, n, 0);
    Around(f, n);
    Around(f + g, n);
    Around(g, n);
    forall i: nat | i < g ensures (s + t)[At(f + i, n, c)] == t[At(i, n, c)] {
      BlockStart(f, i, n, c);
    }
    var x, y := Channel(s + t, f + g, n, c), Channel(s, f, n, c) + Channel(t, g, n, c);
    forall i: nat | i < f + g ensures x[i] == y[i] {
      if i >= f {
        assert (s + t)[At(f + (i - f), n, c)] == t[At(i - f, n, c)];
      }
    }
  }

  /** Filtering two frame-aligned blocks in turn is filtering their concatenation: the state
      carried over makes the seam invisible in every channel. */
  lemma TwoBlocksAreOne(a: nat, b: nat, n: nat, c: nat, f: nat, g: nat, was: seq<int>, now: seq<int>,
                        was': seq<int>, now': seq<int>, y: int, z: int, z': int)
    requires c < n && |was| == |now| == At(f, n, 0) && At(g, n, 0) <= |was'| == |now'|
    requires Filtered(a, b, f, n, c, was, now, y, z) && Filtered(a, b, g, n, c, was', now', z, z')
    ensures At(f + g, n, 0) <= |was + was'|
    ensures Filtered(a, b, f + g, n, c, was + was', now + now', y, z')
  {
    hide At, Output, Channel;
    ChannelConcat(was, was', f, g, n, c);
    ChannelConcat(now, now', f, g, n, c);
    OutputConcat(a, b, Channel(was, f, n, c), Channel(was', g, n, c), y);
    StateConcat(a, b, Channel(was, f, n, c), Channel(was', g, n, c), y);
  }
}
