/** Channel maps: computing them from two channel lists, and moving samples by them, in
    place or between arrays, for samples of any width. */
module ChanMap {
  import opened Frames

  const MAX_CHANNELS := 64
  const NONE := 0

  datatype What = In | Out | Map | InvMap

  // ---------- the maps ----------

  /** The first place of x in a list, from place i on; -1 if there is none. */
  function Find(list: seq<int>, x: int, i: nat): (b: int)
    requires i <= |list|
    ensures b == -1 ==> forall k :: i <= k < |list| ==> list[k] != x
    ensures b != -1 ==> i <= b < |list| && list[b] == x && forall k :: i <= k < b ==> list[k] != x
    decreases |list| - i
  {
    if i == |list| then -1 else if list[i] == x then i else Find(list, x, i + 1)
  }

  /** Where channel a of the source list is found in the destination list. */
  function Place(src: seq<int>, dst: seq<int>, a: nat): int
    requires a < |src|
  {
    if src[a] == NONE then -1 else Find(dst, src[a], 0)
  }

  ghost predicate Unplaced(src: seq<int>, dst: seq<int>, a: nat)
    requires a < |src|
  {
    src[a] != NONE && Place(src, dst, a) == -1
  }

  /** One of the two table computations of roardsp_chanmap_calc. */
  method Fill(perm: array<int>, src: array<int>, dst: array<int>, errOnNone: bool) returns (r: int)
    requires perm.Length == src.Length == dst.Length == MAX_CHANNELS && perm != src && perm != dst
    modifies perm
    ensures r == if errOnNone && exists a: nat :: a < MAX_CHANNELS && Unplaced(src[..], dst[..], a) then -1 else 0
    ensures r == 0 ==> forall a: nat :: a < MAX_CHANNELS ==> perm[a] == Place(src[..], dst[..], a)
  {
    forall k | 0 <= k < MAX_CHANNELS {
      perm[k] := -1;
    }
    var a: nat := 0;
    while a < MAX_CHANNELS
      invariant a <= MAX_CHANNELS
      invariant forall k: nat :: k < a ==> perm[k] == Place(src[..], dst[..], k)
      invariant forall k :: a <= k < MAX_CHANNELS ==> perm[k] == -1
      invariant errOnNone ==> forall k: nat :: k < a ==> !Unplaced(src[..], dst[..], k)
    {
      if src[a] == NONE {
        a := a + 1;
        continue;
      }
      var b: nat := 0;
      while b < MAX_CHANNELS
        invariant b <= MAX_CHANNELS
        invariant forall k :: 0 <= k < b ==> dst[k] != src[a]
        invariant forall k: nat :: k < a ==> perm[k] == Place(src[..], dst[..], k)
        invariant forall k :: a <= k < MAX_CHANNELS ==> perm[k] == -1
      {
        if src[a] == dst[b] {
          perm[a] := b;
          break;
        }
        b := b + 1;
      }
      if b == MAX_CHANNELS {
        if errOnNone {
          assert Unplaced(src[..], dst[..], a);
          return -1;
        }
        perm[a] := -1;
      }
      a := a + 1;
    }
    r := 0;
  }

  /** roardsp_chanmap_calc */
  method Calc(perm: array<int>, in_: array<int>, out: array<int>, what: What, errOnNone: bool) returns (r: int)
    requires perm.Length == in_.Length == out.Length == MAX_CHANNELS && perm != in_ && perm != out
    modifies perm
    ensures what.Map? && r == 0 ==> forall a: nat :: a < MAX_CHANNELS ==> perm[a] == Place(in_[..], out[..], a)
    ensures what.InvMap? && r == 0 ==> forall a: nat :: a < MAX_CHANNELS ==> perm[a] == Place(out[..], in_[..], a)
    ensures what.Map? ==>
      r == if errOnNone && exists a: nat :: a < MAX_CHANNELS && Unplaced(in_[..], out[..], a) then -1 else 0
    ensures what.InvMap? ==>
      r == if errOnNone && exists a: nat :: a < MAX_CHANNELS && Unplaced(out[..], in_[..], a) then -1 else 0
    ensures what.In? || what.Out? ==> r == -1 && perm[..] == old(perm[..])
  {
    match what {
      case Map => r := Fill(perm, in_, out, errOnNone);
      case InvMap => r := Fill(perm, out, in_, errOnNone);
      case _ => r := -1;
    }
  }

  /** Both lists name the same chans distinct channels, in any order, and nothing else. */
  ghost predicate SameChannels(in_: seq<int>, out: seq<int>, chans: nat) {
    && |in_| == |out| == MAX_CHANNELS && chans <= MAX_CHANNELS
    && (forall i, j :: 0 <= i < j < chans ==> in_[i] != in_[j])
    && (forall i, j :: 0 <= i < j < chans ==> out[i] != out[j])
    && (forall i :: 0 <= i < MAX_CHANNELS ==> (in_[i] != NONE <==> i < chans))
    && (forall i :: 0 <= i < MAX_CHANNELS ==> (out[i] != NONE <==> i < chans))
    && (forall i :: 0 <= i < chans ==> in_[i] in out)
    && (forall i :: 0 <= i < chans ==> out[i] in in_)
  }

  /** Then MAP and INVMAP are permutations of the channels, each the inverse of the other,
      and err_on_none makes neither fail. */
  lemma MapsInverse(in_: seq<int>, out: seq<int>, chans: nat, a: nat)
    requires SameChannels(in_, out, chans) && a < MAX_CHANNELS
    ensures a >= chans ==> Place(in_, out, a) == -1 && Place(out, in_, a) == -1
    ensures a < chans ==> 0 <= Place(in_, out, a) < chans && Place(out, in_, Place(in_, out, a)) == a
    ensures a < chans ==> 0 <= Place(out, in_, a) < chans && Place(in_, out, Place(out, in_, a)) == a
    ensures !Unplaced(in_, out, a) && !Unplaced(out, in_, a)
  {
  }

  // ---------- moving samples ----------

  /** Every channel goes to one of the first places. */
  ghost predicate Among(perm: seq<int>, chans: nat, places: nat) {
    chans <= |perm| && forall c :: 0 <= c < chans ==> 0 <= perm[c] < places
  }

  /** Every channel goes somewhere within the frame. */
  ghost predicate Within(perm: seq<int>, chans: nat) {
    Among(perm, chans, chans)
  }

  /** What lies at place p of frame f after its first k samples were put where the map says:
      the last one put there, else silence. */
  function Cell<T>(s: seq<T>, f: nat, n: nat, perm: seq<int>, zero: T, p: nat, k: nat): T
    requires k <= |perm| && At(f, n, 0) + k <= |s|
  {
    if k == 0 then zero
    else if perm[k - 1] == p then s[At(f, n, 0) + k - 1]
    else Cell(s, f, n, perm, zero, p, k - 1)
  }

  /** One frame through a temporary buffer. */
  method FrameInPlace<T>(buf: array<T>, at: nat, chans: nat, perm: seq<int>, zero: T, ghost s: seq<T>, ghost f: nat)
    requires at == At(f, chans, 0) && at + chans <= buf.Length == |s|
    requires chans <= MAX_CHANNELS <= |perm| && Among(perm, chans, MAX_CHANNELS)
    requires forall k :: at <= k < at + chans ==> buf[k] == s[k]
    modifies buf
    ensures forall k :: at <= k < at + chans ==> buf[k] == Cell(s, f, chans, perm, zero, k - at, chans)
    ensures forall k :: 0 <= k < at || at + chans <= k < buf.Length ==> buf[k] == old(buf[k])
  {
    hide At;
    var tmp := new T[MAX_CHANNELS](i => zero);
    for c := 0 to chans
      invariant forall p :: 0 <= p < chans ==> tmp[p] == Cell(s, f, chans, perm, zero, p, c)
      invariant buf[..] == old(buf[..])
    {
      tmp[perm[c]] := buf[at + c];
    }
    forall c | 0 <= c < chans {
      buf[at + c] := tmp[c];
    }
    forall k | at <= k < at + chans ensures buf[k] == Cell(s, f, chans, perm, zero, k - at, chans) {
      assert buf[at + (k - at)] == tmp[k - at];
    }
  }

  /** One frame straight into another array, which was silenced before. */
  method FrameApart<T>(out: array<T>, inp: array<T>, at: nat, chans: nat, perm: seq<int>, zero: T, ghost f: nat)
    requires out != inp && at == At(f, chans, 0) && at + chans <= inp.Length && at + chans <= out.Length
    requires Within(perm, chans)
    requires forall k :: at <= k < at + chans ==> out[k] == zero
    modifies out
    ensures forall k :: at <= k < at + chans ==> out[k] == Cell(inp[..], f, chans, perm, zero, k - at, chans)
    ensures forall k :: 0 <= k < at || at + chans <= k < out.Length ==> out[k] == old(out[k])
  {
    hide At;
    for c := 0 to chans
      invariant forall k :: at <= k < at + chans ==> out[k] == Cell(inp[..], f, chans, perm, zero, k - at, c)
      invariant forall k :: 0 <= k < at || at + chans <= k < out.Length ==> out[k] == old(out[k])
    {
      out[at + perm[c]] := inp[at + c];
    }
  }

  /** One frame of either loop. */
  method MoveFrame<T>(out: array<T>, inp: array<T>, at: nat, chans: nat, perm: seq<int>, zero: T, ghost s: seq<T>, ghost f: nat)
    requires at == At(f, chans, 0) && at + chans <= inp.Length == |s| && at + chans <= out.Length
    requires chans <= MAX_CHANNELS <= |perm| && Among(perm, chans, if inp == out then MAX_CHANNELS else chans)
    requires forall k :: at <= k < at + chans ==> out[k] == if out == inp then s[k] else zero
    requires out != inp ==> inp[..] == s
    modifies out
    ensures forall k :: at <= k < at + chans ==> out[k] == Cell(s, f, chans, perm, zero, k - at, chans)
    ensures forall k :: 0 <= k < at || at + chans <= k < out.Length ==> out[k] == old(out[k])
  {
    hide At, Cell;
    if inp == out {
      FrameInPlace(out, at, chans, perm, zero, s, f);
    } else {
      FrameApart(out, inp, at, chans, perm, zero, f);
    }
  }

  /** roardsp_chanmap_mappcm8, 16 and 32 on samples: in place and between arrays every whole
      frame becomes the same; behind them, a separate output is silenced up to samples. In
      place a frame goes through a buffer of 64 places, so a map may lead out of the frame, and
      what goes there is dropped; between arrays it must not. */
  method MapPcm<T>(out: array<T>, inp: array<T>, samples: nat, chans: nat, perm: seq<int>, zero: T) returns (r: int)
    requires chans > 0 && samples <= inp.Length && samples <= out.Length
    requires |perm| == MAX_CHANNELS && (chans <= MAX_CHANNELS ==> Among(perm, chans, if inp == out then MAX_CHANNELS else chans))
    modifies out
    ensures At(samples / chans, chans, 0) <= samples
    ensures r == if samples > 0 && chans > MAX_CHANNELS then -1 else 0
    ensures r == -1 ==> out[..] == old(out[..])
    ensures r == 0 ==>
      forall f: nat, c: nat :: f < samples / chans && c < chans ==>
        && At(f, chans, c) < samples && At(f, chans, 0) + chans <= samples
        && out[At(f, chans, c)] == Cell(old(inp[..]), f, chans, perm, zero, c, chans)
    ensures r == 0 ==>
      forall k :: At(samples / chans, chans, 0) <= k < samples ==> out[k] == if out == inp then old(out[k]) else zero
    ensures forall k :: samples <= k < out.Length ==> out[k] == old(out[k])
  {
    hide At, Cell;
    WholeFrames(samples, chans);
    if samples == 0 {
      Start(0, chans);
      return 0;
    }
    if chans > MAX_CHANNELS {
      return -1;
    }
    MapFrames(out, inp, samples, samples / chans, chans, perm, zero);
    r := 0;
  }

  /** The frame loop, after silencing a separate output. */
  method MapFrames<T>(out: array<T>, inp: array<T>, samples: nat, frames: nat, chans: nat, perm: seq<int>, zero: T)
    requires samples <= inp.Length && samples <= out.Length && At(frames, chans, 0) <= samples
    requires chans <= MAX_CHANNELS == |perm| && Among(perm, chans, if inp == out then MAX_CHANNELS else chans)
    modifies out
    ensures forall f: nat, c: nat :: f < frames && c < chans ==>
        && At(f, chans, c) < samples && At(f, chans, 0) + chans <= samples
        && out[At(f, chans, c)] == Cell(old(inp[..]), f, chans, perm, zero, c, chans)
    ensures forall k :: At(frames, chans, 0) <= k < samples ==> out[k] == if out == inp then old(out[k]) else zero
    ensures forall k :: samples <= k < out.Length ==> out[k] == old(out[k])
  {
    hide At, Cell;
    ghost var s := inp[..];
    Around(frames, chans);
    AtOffset(chans);
    if inp != out {
      forall k | 0 <= k < samples {
        out[k] := zero;
      }
    }
    for i := 0 to frames
      invariant forall f: nat, c: nat :: f < i && c < chans ==>
                  At(f, chans, 0) + chans <= samples && out[At(f, chans, c)] == Cell(s, f, chans, perm, zero, c, chans)
      invariant forall k :: At(i, chans, 0) <= k < samples ==> out[k] == if out == inp then s[k] else zero
      invariant forall k :: samples <= k < out.Length ==> out[k] == old(out[k])
      invariant inp != out ==> inp[..] == s
    {
      Around(i, chans);
      Start(i, chans);
      Later(i, frames, chans);
      MoveFrame(out, inp, At(i, chans, 0), chans, perm, zero, s, i);
    }
  }

  /** When a calculated map may be used, between arrays and in place: exactly when each of the
      first chans channels is one, and among the first chans, or anywhere, on the other side. */
  lemma CalculatedWithin(src: seq<int>, dst: seq<int>, chans: nat, perm: seq<int>)
    requires |src| == |dst| == |perm| == MAX_CHANNELS && chans <= MAX_CHANNELS
    requires forall a: nat :: a < MAX_CHANNELS ==> perm[a] == Place(src, dst, a)
    ensures Within(perm, chans) <==> forall c :: 0 <= c < chans ==> src[c] != NONE && src[c] in dst[..chans]
    ensures Among(perm, chans, MAX_CHANNELS) <==> forall c :: 0 <= c < chans ==> src[c] != NONE && src[c] in dst
  {
    forall c: nat | c < chans
      ensures 0 <= perm[c] < chans <==> src[c] != NONE && src[c] in dst[..chans]
    {
      if src[c] != NONE && src[c] in dst[..chans] {
        var k :| 0 <= k < chans && dst[..chans][k] == src[c];
        assert dst[k] == src[c];
      }
      assert 0 <= perm[c] < chans ==> dst[..chans][perm[c]] == src[c];
    }
  }

  // ---------- there and back ----------

  ghost predicate Injective(perm: seq<int>, chans: nat) {
    chans <= |perm| && forall i, j :: 0 <= i < j < chans ==> perm[i] != perm[j]
  }

  /** Of the samples sent to one place the last one stays. */
  lemma {:induction false} CellOf<T>(s: seq<T>, f: nat, n: nat, perm: seq<int>, zero: T, c: nat, k: nat)
    requires At(f, n, 0) + k <= |s| && c < k <= |perm| && perm[c] >= 0
    requires forall d :: c < d < k ==> perm[d] != perm[c]
    ensures Cell(s, f, n, perm, zero, perm[c], k) == s[At(f, n, 0) + c]
  {
    if c < k - 1 {
      CellOf(s, f, n, perm, zero, c, k - 1);
    }
  }

  /** A place to which nothing is sent is silent. */
  lemma {:induction false} SilentCell<T>(s: seq<T>, f: nat, n: nat, perm: seq<int>, zero: T, p: nat, k: nat)
    requires At(f, n, 0) + k <= |s| && k <= |perm| && forall d :: 0 <= d < k ==> perm[d] != p
    ensures Cell(s, f, n, perm, zero, p, k) == zero
  {
    if k > 0 {
      SilentCell(s, f, n, perm, zero, p, k - 1);
    }
  }

  /** Two maps of which the second undoes the first. */
  ghost predicate Undoes(perm: seq<int>, inverse: seq<int>, chans: nat) {
    && |perm| == |inverse| == MAX_CHANNELS && chans <= MAX_CHANNELS
    && Within(perm, chans) && Within(inverse, chans)
    && forall c :: 0 <= c < chans ==> inverse[perm[c]] == c && perm[inverse[c]] == c
  }

  lemma UndoesIsInjective(perm: seq<int>, inverse: seq<int>, chans: nat)
    requires Undoes(perm, inverse, chans)
    ensures Injective(perm, chans) && Injective(inverse, chans)
  {
    forall i, j | 0 <= i < j < chans ensures perm[i] != perm[j] && inverse[i] != inverse[j] {
      assert inverse[perm[i]] == i && inverse[perm[j]] == j;
      assert perm[inverse[i]] == i && perm[inverse[j]] == j;
    }
  }

  /** Sample c of a frame sent to perm[c] comes back from there under the inverse map. */
  lemma CellThereAndBack<T>(s: seq<T>, t: seq<T>, f: nat, n: nat, perm: seq<int>, inverse: seq<int>, zero: T, c: nat)
    requires Undoes(perm, inverse, n) && c < n
    requires At(f, n, 0) + n <= |s| && At(f, n, 0) + n <= |t|
    requires forall p :: 0 <= p < n ==> t[At(f, n, 0) + p] == Cell(s, f, n, perm, zero, p, n)
    ensures Cell(t, f, n, inverse, zero, c, n) == s[At(f, n, 0) + c]
  {
    UndoesIsInjective(perm, inverse, n);
    CellOf(t, f, n, inverse, zero, perm[c], n);
    CellOf(s, f, n, perm, zero, c, n);
  }

  /** Remapping with a map and then with the map that undoes it, in place, restores every
      whole frame, and leaves everything else alone. */
  method ThereAndBack<T>(buf: array<T>, samples: nat, chans: nat, perm: seq<int>, inverse: seq<int>, zero: T)
    requires 0 < chans && samples <= buf.Length && Undoes(perm, inverse, chans)
    modifies buf
    ensures At(samples / chans, chans, 0) <= samples
    ensures forall f: nat, c: nat :: f < samples / chans && c < chans ==>
              At(f, chans, c) < buf.Length && buf[At(f, chans, c)] == old(buf[At(f, chans, c)])
    ensures forall k :: At(samples / chans, chans, 0) <= k < buf.Length ==> buf[k] == old(buf[k])
  {
    hide At, Cell;
    WholeFrames(samples, chans);
    ghost var frames := samples / chans;
    ghost var s := buf[..];
    AtOffset(chans);
    var r := MapPcm(buf, buf, samples, chans, perm, zero);
    ghost var t := buf[..];
    r := MapPcm(buf, buf, samples, chans, inverse, zero);
    forall f: nat, c: nat | f < frames && c < chans
      ensures At(f, chans, c) < buf.Length && buf[At(f, chans, c)] == s[At(f, chans, c)]
    {
      assert At(f, chans, c) == At(f, chans, 0) + c;
      forall p | 0 <= p < chans ensures t[At(f, chans, 0) + p] == Cell(s, f, chans, perm, zero, p, chans) {
        assert At(f, chans, p) == At(f, chans, 0) + p;
      }
      CellThereAndBack(s, t, f, chans, perm, inverse, zero, c);
    }
  }

  /** The maps computed from two lists of the same channels undo each other. */
  lemma CalculatedMapsUndo(in_: seq<int>, out: seq<int>, chans: nat, perm: seq<int>, inverse: seq<int>)
    requires SameChannels(in_, out, chans) && |perm| == |inverse| == MAX_CHANNELS
    requires forall a: nat :: a < MAX_CHANNELS ==> perm[a] == Place(in_, out, a) && inverse[a] == Place(out, in_, a)
    ensures Undoes(perm, inverse, chans) && Undoes(inverse, perm, chans)
  {
    forall a: nat | a < chans
      ensures 0 <= perm[a] < chans && 0 <= inverse[a] < chans && inverse[perm[a]] == a && perm[inverse[a]] == a
    {
      MapsInverse(in_, out, chans, a);
    }
  }
}
