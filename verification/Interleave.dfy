/** Interleaving: bytes of several channels into one stream of frames, and back. With w
    bytes a sample, byte k of the sample of channel c in frame f lies in the stream at
    (f * channels + c) * w + k, and in its channel at f * w + k. */
module Interleave {
  import opened CInt
  import opened Frames

  const MAX_CHANNELS := 16

  function Place(f: nat, c: nat, k: nat, channels: nat, w: nat): nat {
    At(At(f, channels, c), w, k)
  }

  /** roar_interl_init takes whole bytes and up to 16 channels. */
  predicate InitOk(channels: nat, bits: nat) {
    bits % 8 == 0 && channels <= MAX_CHANNELS
  }

  lemma PlaceUnique(f: nat, c: nat, k: nat, channels: nat, w: nat)
    requires c < channels && k < w
    ensures forall g: nat, d: nat, j: nat :: d < channels && j < w && Place(g, d, j, channels, w) == Place(f, c, k, channels, w)
                                             ==> g == f && d == c && j == k
  {
    hide At;
    forall g: nat, d: nat, j: nat | d < channels && j < w && Place(g, d, j, channels, w) == Place(f, c, k, channels, w)
      ensures g == f && d == c && j == k
    {
      Injective(At(g, channels, d), j, At(f, channels, c), k, w);
      Injective(g, d, f, c, channels);
    }
  }

  /** A place before the end of the frames belongs to one of them. */
  lemma PlaceInFrames(f: nat, c: nat, k: nat, channels: nat, w: nat, frames: nat)
    requires c < channels && k < w && Place(f, c, k, channels, w) < Place(frames, 0, 0, channels, w)
    ensures f < frames && At(f, w, k) < At(frames, w, 0)
  {
    hide At;
    if f >= frames {
      if f > frames {
        Later(frames, f, channels);
      }
      AtOffset(channels);
      AtOffset(w);
      if At(frames, channels, 0) < At(f, channels, c) {
        Later(At(frames, channels, 0), At(f, channels, c), w);
      }
      assert false;
    }
    Later(f, frames, w);
    AtOffset(w);
  }

  /** The three ways the counters advance. */
  lemma PlaceNext(f: nat, c: nat, k: nat, channels: nat, w: nat)
    requires c < channels && k < w
    ensures k + 1 < w ==> Place(f, c, k + 1, channels, w) == Place(f, c, k, channels, w) + 1
    ensures k + 1 == w && c + 1 < channels ==> Place(f, c + 1, 0, channels, w) == Place(f, c, k, channels, w) + 1
    ensures k + 1 == w && c + 1 == channels ==> Place(f + 1, 0, 0, channels, w) == Place(f, c, k, channels, w) + 1
    ensures Place(0, 0, 0, channels, w) == 0
    ensures At(f, w, k) == At(f, w, 0) + k && At(f + 1, w, 0) == At(f, w, 0) + w
  {
    Start(f, channels);
    Start(At(f, channels, c), w);
    Start(f, w);
  }

  /** How far the pointer of channel d has advanced when the counters stand at f, c, k. */
  function Read(f: nat, c: nat, k: nat, w: nat, d: nat): nat {
    At(f, w, 0) + if d < c then w else if d == c then k else 0
  }

  /** The stream holds, before place end, the bytes of the channels in order. */
  ghost predicate Interleaved(stream: seq<byte>, chans: seq<seq<byte>>, w: nat, end: nat) {
    forall f: nat, c: nat, k: nat :: c < |chans| && k < w && Place(f, c, k, |chans|, w) < end ==>
      && Place(f, c, k, |chans|, w) < |stream| && At(f, w, k) < |chans[c]|
      && stream[Place(f, c, k, |chans|, w)] == chans[c][At(f, w, k)]
  }

  lemma InterleavedStep(was: seq<byte>, now: seq<byte>, chans: seq<seq<byte>>, w: nat, f: nat, c: nat, k: nat)
    requires c < |chans| && k < w && At(f, w, k) < |chans[c]|
    requires Place(f, c, k, |chans|, w) < |was| == |now| && Interleaved(was, chans, w, Place(f, c, k, |chans|, w))
    requires now == was[Place(f, c, k, |chans|, w) := chans[c][At(f, w, k)]]
    ensures Interleaved(now, chans, w, Place(f, c, k, |chans|, w) + 1)
  {
    hide At, Place;
    PlaceUnique(f, c, k, |chans|, w);
  }

  /** The counters of both loops stand at byte k of channel chan in frame f: bc counts the bits
      of the sample done, ptr how far each channel's pointer has come. */
  ghost predicate Stands(chan: nat, bc: nat, ptr: seq<nat>, f: nat, k: nat, channels: nat, bits: nat, place: nat) {
    && chan < channels && k < bits / 8 && bc == 8 * k
    && place == Place(f, chan, k, channels, bits / 8)
    && |ptr| == channels && forall d :: 0 <= d < channels ==> ptr[d] == Read(f, chan, k, bits / 8, d)
  }

  lemma StandsFirst(channels: nat, bits: nat)
    requires channels > 0 && bits > 0 && bits % 8 == 0
    ensures Stands(0, 0, seq(channels, i => 0), 0, 0, channels, bits, 0)
  {
    hide At, Place;
    PlaceNext(0, 0, 0, channels, bits / 8);
    Start(0, bits / 8);
  }

  /** The end of either loop body. */
  method Advance(channels: nat, bits: nat, chan0: nat, bc0: nat, ptr0: seq<nat>, ghost f0: nat, ghost k0: nat, ghost place: nat)
    returns (chan: nat, bc: nat, ptr: seq<nat>, ghost f: nat, ghost k: nat)
    requires bits % 8 == 0 && Stands(chan0, bc0, ptr0, f0, k0, channels, bits, place)
    ensures Stands(chan, bc, ptr, f, k, channels, bits, place + 1)
  {
    hide At, Place;
    PlaceNext(f0, chan0, k0, channels, bits / 8);
    chan, bc, f, k := chan0, bc0, f0, k0 + 1;
    ptr := ptr0[chan := ptr0[chan] + 1];
    bc := bc + 8;
    if bc == bits {
      bc := 0;
      k := 0;
      chan := chan + 1;
      if chan == channels {
        chan := 0;
        f := f + 1;
      }
    }
  }

  /** roar_interl_encode_ext; it returns -1 after doing its work. */
  method Encode(channels: nat, bits: nat, inp: seq<seq<byte>>, out: array<byte>, len: nat, ghost frames: nat) returns (r: int)
    requires InitOk(channels, bits) && channels > 0 && bits > 0 && |inp| == channels
    requires len <= out.Length && len <= Place(frames, 0, 0, channels, bits / 8)
    requires forall c :: 0 <= c < channels ==> |inp[c]| >= At(frames, bits / 8, 0)
    modifies out
    ensures r == if len == 0 then 0 else -1
    ensures Interleaved(out[..], inp, bits / 8, len)
    ensures forall i :: len <= i < out.Length ==> out[i] == old(out[i])
  {
    hide At, Place, Interleaved;
    NothingInterleaved(out[..], inp, bits / 8);
    if len == 0 {
      return 0;
    }
    var chan: nat, bc: nat := 0, 0;
    var ip: seq<nat> := seq(channels, i => 0);
    ghost var f, k: nat := 0, 0;
    StandsFirst(channels, bits);
    for oc: nat := 0 to len
      invariant Stands(chan, bc, ip, f, k, channels, bits, oc)
      invariant Interleaved(out[..], inp, bits / 8, oc)
      invariant forall i :: len <= i < out.Length ==> out[i] == old(out[i])
    {
      ghost var was := out[..];
      PlaceInFrames(f, chan, k, channels, bits / 8, frames);
      PlaceNext(f, chan, k, channels, bits / 8);
      out[oc] := inp[chan][ip[chan]];
      InterleavedStep(was, out[..], inp, bits / 8, f, chan, k);
      chan, bc, ip, f, k := Advance(channels, bits, chan, bc, ip, f, k, oc);
    }
    r := -1;
  }

  lemma NothingInterleaved(stream: seq<byte>, chans: seq<seq<byte>>, w: nat)
    ensures Interleaved(stream, chans, w, 0)
  {
  }

  // ---------- decoding ----------

  /** The contents of several arrays. */
  function Contents(outs: seq<array<byte>>): (s: seq<seq<byte>>)
    reads outs
    ensures |s| == |outs| && forall c :: 0 <= c < |outs| ==> s[c] == outs[c][..]
  {
    if outs == [] then [] else [outs[0][..]] + Contents(outs[1..])
  }

  /** roar_interl_decode_ext on separate channel buffers; it too returns -1 after its work. */
  method Decode(channels: nat, bits: nat, inp: seq<byte>, outs: seq<array<byte>>, len: nat, ghost frames: nat) returns (r: int)
    requires InitOk(channels, bits) && channels > 0 && bits > 0 && |outs| == channels
    requires len <= |inp| && len <= Place(frames, 0, 0, channels, bits / 8)
    requires forall c :: 0 <= c < channels ==> outs[c].Length >= At(frames, bits / 8, 0)
    requires forall c, d :: 0 <= c < d < channels ==> outs[c] != outs[d]
    modifies outs
    ensures r == if len == 0 then 0 else -1
    ensures Interleaved(inp, Contents(outs), bits / 8, len)
    ensures forall c, i :: 0 <= c < channels && At(frames, bits / 8, 0) <= i < outs[c].Length ==> outs[c][i] == old(outs[c][i])
  {
    hide At, Place, Interleaved, Contents;
    NothingInterleaved(inp, Contents(outs), bits / 8);
    if len == 0 {
      return 0;
    }
    var chan: nat, bc: nat := 0, 0;
    var op: seq<nat> := seq(channels, i => 0);
    ghost var f, k: nat := 0, 0;
    StandsFirst(channels, bits);
    for ic: nat := 0 to len
      invariant Stands(chan, bc, op, f, k, channels, bits, ic)
      invariant Interleaved(inp, Contents(outs), bits / 8, ic)
      invariant forall c, i :: 0 <= c < channels && At(frames, bits / 8, 0) <= i < outs[c].Length ==> outs[c][i] == old(outs[c][i])
    {
      ghost var was := Contents(outs);
      PlaceInFrames(f, chan, k, channels, bits / 8, frames);
      PlaceNext(f, chan, k, channels, bits / 8);
      outs[chan][op[chan]] := inp[ic];
      DecodedStep(inp, was, Contents(outs), bits / 8, f, chan, k);
      chan, bc, op, f, k := Advance(channels, bits, chan, bc, op, f, k, ic);
    }
    r := -1;
  }

  lemma DecodedStep(stream: seq<byte>, was: seq<seq<byte>>, now: seq<seq<byte>>, w: nat, f: nat, c: nat, k: nat)
    requires c < |was| == |now| && k < w && At(f, w, k) < |was[c]|
    requires Place(f, c, k, |was|, w) < |stream| && Interleaved(stream, was, w, Place(f, c, k, |was|, w))
    requires now == was[c := was[c][At(f, w, k) := stream[Place(f, c, k, |was|, w)]]]
    ensures Interleaved(stream, now, w, Place(f, c, k, |was|, w) + 1)
  {
    hide At, Place;
    PlaceUnique(f, c, k, |was|, w);
    forall g: nat, d: nat, j: nat | d < |now| && j < w && Place(g, d, j, |now|, w) < Place(f, c, k, |was|, w) + 1
      ensures Place(g, d, j, |now|, w) < |stream| && At(g, w, j) < |now[d]|
              && stream[Place(g, d, j, |now|, w)] == now[d][At(g, w, j)]
    {
      if d == c && At(g, w, j) == At(f, w, k) {
        Injective(g, j, f, k, w);
      }
    }
  }

  /** Channels that interleave to the same stream are the same, so decoding what was encoded
      gives back every byte of every channel. */
  lemma SameStreamSameChannels(stream: seq<byte>, chans: seq<seq<byte>>, chans': seq<seq<byte>>, w: nat, frames: nat, c: nat, i: nat)
    requires |chans| == |chans'| && c < |chans| && i < At(frames, w, 0)
    requires Interleaved(stream, chans, w, Place(frames, 0, 0, |chans|, w))
    requires Interleaved(stream, chans', w, Place(frames, 0, 0, |chans|, w))
    ensures i < |chans[c]| && i < |chans'[c]| && chans[c][i] == chans'[c][i]
  {
    hide Place;
    Start(frames, w);
    var f, k := Covered(i, frames, w);
    PlaceBelow(f, c, k, |chans|, w, frames);
    hide At;
    assert At(f, w, k) == i;
  }

  /** A stream is determined by its channels, so encoding what was decoded gives it back. */
  lemma SameChannelsSameStream(stream: seq<byte>, stream': seq<byte>, chans: seq<seq<byte>>, w: nat, frames: nat, p: nat)
    requires p < Place(frames, 0, 0, |chans|, w)
    requires Interleaved(stream, chans, w, Place(frames, 0, 0, |chans|, w))
    requires Interleaved(stream', chans, w, Place(frames, 0, 0, |chans|, w))
    ensures p < |stream| && p < |stream'| && stream[p] == stream'[p]
  {
    var n := |chans|;
    Start(At(frames, n, 0), w);
    Start(frames, n);
    var q, k := Covered(p, At(frames, n, 0), w);
    var f, c := Covered(q, frames, n);
    hide At;
    assert p == Place(f, c, k, n, w);
    hide Place;
  }

  lemma PlaceBelow(f: nat, c: nat, k: nat, channels: nat, w: nat, frames: nat)
    requires f < frames && c < channels && k < w
    ensures Place(f, c, k, channels, w) < Place(frames, 0, 0, channels, w)
  {
    hide At;
    Later(f, frames, channels);
    AtOffset(channels);
    AtOffset(w);
    Later(At(f, channels, c), At(frames, channels, 0), w);
  }

  /** Encoding whole frames and decoding them into other buffers copies every channel. */
  method EncodeDecode(channels: nat, bits: nat, inp: seq<seq<byte>>, stream: array<byte>, outs: seq<array<byte>>, frames: nat)
    requires InitOk(channels, bits) && channels > 0 && bits > 0 && |inp| == |outs| == channels
    requires stream.Length == Place(frames, 0, 0, channels, bits / 8) && stream !in outs
    requires forall c :: 0 <= c < channels ==> |inp[c]| == outs[c].Length == At(frames, bits / 8, 0)
    requires forall c, d :: 0 <= c < d < channels ==> outs[c] != outs[d]
    modifies stream, outs
    ensures Contents(outs) == inp
  {
    hide At, Place, Interleaved;
    var len := stream.Length;
    var r := Encode(channels, bits, inp, stream, len, frames);
    var s := stream[..];
    r := Decode(channels, bits, s, outs, len, frames);
    ghost var back := Contents(outs);
    forall c: nat | c < channels ensures back[c] == inp[c] {
      forall i: nat | i < At(frames, bits / 8, 0) ensures back[c][i] == inp[c][i] {
        SameStreamSameChannels(s, back, inp, bits / 8, frames, c, i);
      }
    }
  }
}
