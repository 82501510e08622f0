/** Level monitoring results: the packed answer the server writes, and the lookups of
    libroar in it. A measurement type is a bit of a non-negative mask; a table holds, for
    every stream and channel, the value of every type. */
module Ltm {
  import opened Frames

  type Channel = nat -> int
  type Table = seq<seq<Channel>>

  // ---------- bits ----------

  predicate Bit(mt: nat, k: nat) {
    if k == 0 then mt % 2 == 1 else Bit(mt / 2, k - 1)
  }

  function Popcount(mt: nat): nat {
    if mt == 0 then 0 else mt % 2 + Popcount(mt / 2)
  }

  /** How many bits are set below bit k. */
  function Rank(mt: nat, k: nat): nat {
    if k == 0 then 0 else mt % 2 + Rank(mt / 2, k - 1)
  }

  /** The lowest set bit. */
  function LowBit(mt: nat): nat
    requires mt > 0
  {
    if mt % 2 == 1 then 0 else 1 + LowBit(mt / 2)
  }

  lemma {:induction false} NoBits(k: nat)
    ensures !Bit(0, k) && Rank(0, k) == 0
  {
    if k > 0 {
      NoBits(k - 1);
    }
  }

  lemma {:induction false} RankBelow(mt: nat, k: nat)
    ensures Rank(mt, k) <= Popcount(mt)
    ensures Bit(mt, k) ==> Rank(mt, k) < Popcount(mt)
  {
    if mt == 0 {
      NoBits(k);
    } else if k > 0 {
      RankBelow(mt / 2, k - 1);
    }
  }

  /** Of two set bits the higher one has the higher rank. */
  lemma {:induction false} RankIncreases(mt: nat, j: nat, k: nat)
    requires j < k
    ensures Rank(mt, j) <= Rank(mt, k)
    ensures Bit(mt, j) ==> Rank(mt, j) < Rank(mt, k)
  {
    if j > 0 {
      RankIncreases(mt / 2, j - 1, k - 1);
    }
  }

  lemma {:induction false} SingleBit(mt: nat)
    requires Popcount(mt) == 1
    ensures forall k :: Bit(mt, k) <==> k == LowBit(mt)
  {
    forall k: nat ensures Bit(mt, k) <==> k == LowBit(mt) {
      OnlyLowBit(mt, k);
    }
  }

  lemma {:induction false} OnlyLowBit(mt: nat, k: nat)
    requires Popcount(mt) == 1
    ensures Bit(mt, k) <==> k == LowBit(mt)
  {
    if mt % 2 == 1 {
      if k > 0 {
        PopcountZero(mt / 2);
        NoBits(k - 1);
      }
    } else if k > 0 {
      OnlyLowBit(mt / 2, k - 1);
    }
  }

  lemma {:induction false} PopcountZero(mt: nat)
    requires Popcount(mt) == 0
    ensures mt == 0
  {
    if mt > 0 {
      PopcountZero(mt / 2);
    }
  }

  /** f >> n, which keeps the sign. */
  function Shifted(f: int, n: nat): int
    decreases n
  {
    if n == 0 then f else Shifted(f / 2, n - 1)
  }

  /** A negative argument of roar_ltm_numbits never becomes zero, so its loop never ends. */
  lemma {:induction false} NegativeNeverEnds(f: int, n: nat)
    requires f < 0
    ensures Shifted(f, n) < 0
    decreases n
  {
    if n > 0 {
      NegativeNeverEnds(f / 2, n - 1);
    }
  }

  /** mt >> k */
  function Above(mt: nat, k: nat): nat {
    if k == 0 then mt else Above(mt / 2, k - 1)
  }

  /** The lowest set bit from bit k on. */
  function NextBit(mt: nat, k: nat): nat
    requires Above(mt, k) > 0
  {
    k + LowBit(Above(mt, k))
  }

  lemma {:induction false} LowBitIsLowest(mt: nat)
    requires mt > 0
    ensures Bit(mt, LowBit(mt)) && forall j :: 0 <= j < LowBit(mt) ==> !Bit(mt, j)
    ensures Rank(mt, LowBit(mt)) == 0
  {
    if mt % 2 == 0 {
      LowBitIsLowest(mt / 2);
    }
  }

  lemma {:induction false} PopcountPositive(mt: nat)
    ensures Popcount(mt) > 0 <==> mt > 0
  {
    if mt > 0 {
      PopcountPositive(mt / 2);
    }
  }

  /** If a bit from k on is set, NextBit is the first such, and no bit between adds to the rank;
      if none is, the rank of k is the number of all bits. */
  lemma {:induction false} NextIsNext(mt: nat, k: nat)
    ensures Above(mt, k) > 0 ==> Bit(mt, NextBit(mt, k)) && Rank(mt, NextBit(mt, k)) == Rank(mt, k)
    ensures Above(mt, k) > 0 ==> forall j :: k <= j < NextBit(mt, k) ==> !Bit(mt, j)
    ensures Above(mt, k) == 0 ==> Rank(mt, k) == Popcount(mt)
    ensures Bit(mt, k) ==> Above(mt, k) > 0 && NextBit(mt, k) == k
  {
    if k == 0 {
      if mt > 0 {
        LowBitIsLowest(mt);
      }
    } else {
      NextIsNext(mt / 2, k - 1);
      if Above(mt, k) > 0 {
        assert NextBit(mt, k) == NextBit(mt / 2, k - 1) + 1;
        forall j | k <= j < NextBit(mt, k) ensures !Bit(mt, j) {
          assert !Bit(mt / 2, j - 1);
        }
      } else if mt == 0 {
        NoBits(k);
      }
    }
  }

  /** roar_ltm_numbits on an argument that is not negative. */
  method Numbits(f: nat) returns (found: nat)
    ensures found == Popcount(f)
  {
    found := 0;
    var g := f;
    while g != 0
      invariant found + Popcount(g) == Popcount(f)
    {
      if g % 2 == 1 {
        found := found + 1;
      }
      g := g / 2;
    }
  }

  // ---------- the packed form ----------

  /** The words of one channel: the values of the requested types, lowest bit first. */
  function Values(mt: nat, ch: Channel, base: nat): seq<int> {
    if mt == 0 then [] else (if mt % 2 == 1 then [ch(base)] else []) + Values(mt / 2, ch, base + 1)
  }

  function Channels(mt: nat, chans: seq<Channel>): seq<int> {
    if chans == [] then [] else Values(mt, chans[0], 0) + Channels(mt, chans[1..])
  }

  /** The words the server sends: per stream the number of channels, then its channels. */
  function Packed(mt: nat, table: Table): seq<int> {
    if table == [] then [] else [|table[0]| % 0x1_0000] + Channels(mt, table[0]) + Packed(mt, table[1..])
  }

  function Offset(mt: nat, table: Table, s: nat): nat
    requires s <= |table|
  {
    if s == 0 then 0 else 1 + At(|table[0]|, Popcount(mt), 0) + Offset(mt, table[1..], s - 1)
  }

  /** Where the value of type k of a channel lies. */
  function Slot(mt: nat, table: Table, s: nat, c: nat, k: nat): nat
    requires s <= |table|
  {
    Offset(mt, table, s) + 1 + At(c, Popcount(mt), 0) + Rank(mt, k)
  }

  lemma {:induction false} ValuesAt(mt: nat, ch: Channel, base: nat, k: nat)
    ensures |Values(mt, ch, base)| == Popcount(mt)
    ensures Bit(mt, k) ==> Rank(mt, k) < Popcount(mt) && Values(mt, ch, base)[Rank(mt, k)] == ch(base + k)
  {
    if mt == 0 {
      NoBits(k);
    } else {
      var first := if mt % 2 == 1 then [ch(base)] else [];
      var rest := Values(mt / 2, ch, base + 1);
      assert Values(mt, ch, base) == first + rest;
      ValuesAt(mt / 2, ch, base + 1, if k == 0 then 0 else k - 1);
      hide Values;
      RankBelow(mt, k);
    }
  }

  lemma {:induction false} ChannelsAt(mt: nat, chans: seq<Channel>, c: nat, k: nat)
    ensures |Channels(mt, chans)| == At(|chans|, Popcount(mt), 0)
    ensures c < |chans| && Bit(mt, k) ==>
              var i := At(c, Popcount(mt), 0) + Rank(mt, k);
              i < |Channels(mt, chans)| && Channels(mt, chans)[i] == chans[c](k)
  {
    hide At, Popcount, Rank, Bit, Values;
    var n := Popcount(mt);
    if chans == [] {
      Start(0, n);
    } else {
      RankBelow(mt, k);
      ValuesAt(mt, chans[0], 0, k);
      Start(|chans| - 1, n);
      if c == 0 {
        ChannelsAt(mt, chans[1..], 0, k);
        Start(0, n);
      } else {
        ChannelsAt(mt, chans[1..], c - 1, k);
        Start(c - 1, n);
      }
    }
  }

  ghost predicate Small(table: Table) {
    forall s :: 0 <= s < |table| ==> |table[s]| < 0x1_0000
  }

  /** Stream s starts at its offset with its channel count, and holds at the slot of every
      set bit the value of the table. */
  lemma {:induction false} PackedAt(mt: nat, table: Table, s: nat, c: nat, k: nat)
    requires s < |table| && Small(table)
    ensures var p := Packed(mt, table);
            && Offset(mt, table, s) < |p| && p[Offset(mt, table, s)] == |table[s]|
            && (c < |table[s]| && Bit(mt, k) ==>
                  Slot(mt, table, s, c, k) < |p| && p[Slot(mt, table, s, c, k)] == table[s][c](k))
    decreases s
  {
    hide At, Popcount, Rank, Bit, Channels;
    var first := [|table[0]| % 0x1_0000] + Channels(mt, table[0]);
    ChannelsAt(mt, table[0], c, k);
    if s == 0 {
      assert table[0] == table[s];
    } else {
      assert Small(table[1..]) by {
        assert forall i :: 0 <= i < |table| - 1 ==> table[1..][i] == table[i + 1];
      }
      PackedAt(mt, table[1..], s - 1, c, k);
      assert table[1..][s - 1] == table[s];
      assert |first| == 1 + At(|table[0]|, Popcount(mt), 0);
    }
  }

  lemma {:induction false} OffsetStep(mt: nat, table: Table, s: nat)
    requires s < |table|
    ensures Offset(mt, table, s + 1) == Offset(mt, table, s) + 1 + At(|table[s]|, Popcount(mt), 0)
  {
    hide At;
    if s > 0 {
      OffsetStep(mt, table[1..], s - 1);
    }
  }

  lemma {:induction false} OffsetOrder(mt: nat, table: Table, s: nat, t: nat)
    requires s < t <= |table|
    ensures Offset(mt, table, s) + 1 + At(|table[s]|, Popcount(mt), 0) <= Offset(mt, table, t)
    decreases t
  {
    hide At;
    OffsetStep(mt, table, t - 1);
    if s < t - 1 {
      OffsetOrder(mt, table, s, t - 1);
    }
  }

  lemma SlotInStream(mt: nat, table: Table, s: nat, c: nat, k: nat)
    requires s < |table| && c < |table[s]| && Bit(mt, k)
    ensures Offset(mt, table, s) < Slot(mt, table, s, c, k) < Offset(mt, table, s + 1)
  {
    hide At;
    RankBelow(mt, k);
    OffsetStep(mt, table, s);
    Later(c, |table[s]|, Popcount(mt));
  }

  /** Different streams, channels or types have different slots. */
  lemma SlotsDiffer(mt: nat, table: Table, s: nat, c: nat, k: nat, s': nat, c': nat, k': nat)
    requires s < |table| && c < |table[s]| && Bit(mt, k)
    requires s' < |table| && c' < |table[s']| && Bit(mt, k')
    requires Slot(mt, table, s, c, k) == Slot(mt, table, s', c', k')
    ensures s == s' && c == c' && k == k'
  {
    hide Offset;
    SlotInStream(mt, table, s, c, k);
    SlotInStream(mt, table, s', c', k');
    if s < s' && s + 1 < s' {
      OffsetOrder(mt, table, s + 1, s');
    } else if s' < s && s' + 1 < s {
      OffsetOrder(mt, table, s' + 1, s);
    }
    var n := Popcount(mt);
    RankBelow(mt, k);
    RankBelow(mt, k');
    Injective(c, Rank(mt, k), c', Rank(mt, k'), n);
    if k < k' {
      RankIncreases(mt, k, k');
    } else if k' < k {
      RankIncreases(mt, k', k);
    }
  }

  // ---------- the lookups ----------

  /** struct roar_ltm_result as roar_ltm_get fills it. */
  datatype Result = Result(mt: nat, streams: nat, nummt: nat, data: seq<int>)

  ghost predicate Holds(res: Result, table: Table) {
    && res.data == Packed(res.mt, table) && res.streams == |table| && res.nummt == Popcount(res.mt)
    && Small(table)
  }

  /** roar_ltm_get_streamptr; -1 stands for NULL. */
  method GetStreamPtr(res: Result, streamidx: int, ghost table: Table) returns (ptr: int)
    requires Holds(res, table)
    ensures ptr == if 0 <= streamidx < |table| then Offset(res.mt, table, streamidx) else -1
  {
    hide Offset, Packed;
    if streamidx < 0 || streamidx >= res.streams {
      return -1;
    }
    OffsetStart(res.mt, table);
    ptr := 0;
    for i := 0 to streamidx
      invariant ptr == Offset(res.mt, table, i)
    {
      PackedAt(res.mt, table, i, 0, 0);
      var numchans := res.data[ptr] % 0x1_0000;
      OffsetStep(res.mt, table, i);
      Start(numchans, res.nummt);
      ptr := ptr + numchans * res.nummt;
      ptr := ptr + 1;
    }
  }

  lemma OffsetStart(mt: nat, table: Table)
    ensures Offset(mt, table, 0) == 0
  {
  }

  method GetNumchans(res: Result, streamidx: int, ghost table: Table) returns (r: int)
    requires Holds(res, table)
    ensures r == if 0 <= streamidx < |table| then |table[streamidx]| else -1
  {
    var ptr := GetStreamPtr(res, streamidx, table);
    if ptr == -1 {
      return -1;
    }
    PackedAt(res.mt, table, streamidx, 0, 0);
    return res.data[ptr] % 0x1_0000;
  }

  /** What a lookup finds: a word of the answer, or memory outside of it. */
  datatype Found = Word(value: int) | Beyond

  function WordAt(data: seq<int>, i: int): Found {
    if 0 <= i < |data| then Word(data[i]) else Beyond
  }

  /** What the lookup for stream s, channel c and type k finds: of the types that were requested
      the first from k on. If there is none, the next channel's first value, or the channel
      count of the next stream, or what lies behind the answer. */
  ghost function Reading(mt: nat, table: Table, s: nat, c: nat, k: nat): Found
    requires s < |table| && c < |table[s]|
  {
    if Above(mt, k) > 0 then Word(table[s][c](NextBit(mt, k)))
    else if mt > 0 && c + 1 < |table[s]| then Word(table[s][c + 1](LowBit(mt)))
    else if s + 1 < |table| then Word(|table[s + 1]|)
    else Beyond
  }

  lemma {:induction false} PackedLength(mt: nat, table: Table)
    ensures |Packed(mt, table)| == Offset(mt, table, |table|)
  {
    hide At, Popcount, Channels;
    if table != [] {
      PackedLength(mt, table[1..]);
      ChannelsAt(mt, table[0], 0, 0);
    }
  }

  /** The slot of a type, when nothing is requested from it on. */
  lemma SlotBehind(mt: nat, table: Table, s: nat, c: nat, k: nat)
    requires s < |table| && c < |table[s]| && Above(mt, k) == 0
    ensures mt > 0 && c + 1 < |table[s]| ==> Slot(mt, table, s, c, k) == Slot(mt, table, s, c + 1, LowBit(mt))
    ensures mt == 0 || c + 1 == |table[s]| ==> Slot(mt, table, s, c, k) == Offset(mt, table, s + 1)
  {
    hide At, Offset;
    NextIsNext(mt, k);
    PopcountPositive(mt);
    OffsetStep(mt, table, s);
    Start(c, Popcount(mt));
    if mt > 0 {
      LowBitIsLowest(mt);
    } else {
      NoRoom(c);
      NoRoom(|table[s]|);
    }
  }

  lemma NoRoom(c: nat)
    ensures At(c, 0, 0) == 0
  {
  }

  /** The word at the slot of any stream, channel and type, requested or not. */
  lemma SlotReads(mt: nat, table: Table, s: nat, c: nat, k: nat)
    requires Small(table) && s < |table| && c < |table[s]|
    ensures var i, p := Slot(mt, table, s, c, k), Packed(mt, table);
            Reading(mt, table, s, c, k) == WordAt(p, i)
  {
    hide Offset, Packed, Rank, Above, LowBit, Bit;
    NextIsNext(mt, k);
    PackedLength(mt, table);
    if Above(mt, k) > 0 {
      PackedAt(mt, table, s, c, NextBit(mt, k));
    } else {
      SlotBehind(mt, table, s, c, k);
      if mt > 0 && c + 1 < |table[s]| {
        LowBitIsLowest(mt);
        PackedAt(mt, table, s, c + 1, LowBit(mt));
      } else if s + 1 < |table| {
        PackedAt(mt, table, s + 1, 0, 0);
      }
    }
  }

  /** Bit j is set and not below bit k. */
  predicate SetFrom(mt: nat, k: nat, j: nat) {
    j >= k && Bit(mt, j)
  }

  /** The lookup stays within the answer exactly if a type from k on was requested, or any type
      and the channel is not the last of its stream, or the stream is not the last. */
  lemma StaysWithin(mt: nat, table: Table, s: nat, c: nat, k: nat)
    requires Small(table) && s < |table| && c < |table[s]|
    ensures Slot(mt, table, s, c, k) < |Packed(mt, table)|
            <==> (exists j: nat :: SetFrom(mt, k, j)) || (mt > 0 && c + 1 < |table[s]|) || s + 1 < |table|
  {
    hide Slot, Packed, Rank, LowBit, SetFrom, NextBit;
    SlotReads(mt, table, s, c, k);
    assert Slot(mt, table, s, c, k) < |Packed(mt, table)| <==> Reading(mt, table, s, c, k).Word?;
    AboveIffBit(mt, k);
  }

  lemma AboveIffBit(mt: nat, k: nat)
    ensures Above(mt, k) > 0 <==> exists j: nat :: SetFrom(mt, k, j)
  {
    NextIsNext(mt, k);
    if Above(mt, k) > 0 {
      var j: nat := NextBit(mt, k);
      assert SetFrom(mt, k, j);
    } else {
      forall j: nat ensures !SetFrom(mt, k, j) {
        if SetFrom(mt, k, j) {
          AboveBit(mt, k, j);
        }
      }
    }
  }

  lemma {:induction false} AboveBit(mt: nat, k: nat, j: nat)
    requires j >= k && Bit(mt, j)
    ensures Above(mt, k) > 0
  {
    if k > 0 {
      AboveBit(mt / 2, k - 1, j - 1);
    } else if mt == 0 {
      NoBits(j);
    }
  }

  /** A type that was not requested reads as the next higher one that was, if there is one. */
  lemma UnrequestedReadsNext(mt: nat, table: Table, s: nat, c: nat, k: nat, next: nat)
    requires Small(table) && s < |table| && c < |table[s]|
    requires k < next && Bit(mt, next) && forall j :: k <= j < next ==> !Bit(mt, j)
    ensures Slot(mt, table, s, c, k) < |Packed(mt, table)|
    ensures Packed(mt, table)[Slot(mt, table, s, c, k)] == table[s][c](next)
  {
    hide Slot, Packed, Rank, LowBit;
    SlotReads(mt, table, s, c, k);
    AboveBit(mt, k, next);
    NextIsNext(mt, k);
  }

  /** roar_ltm_extract: -1 for a mask of any number of bits but one, or no such stream or
      channel; else what Reading says for the one bit. A negative channel is not refused; it
      leads as far back before the stream's channels. */
  method Extract(res: Result, mt: nat, streamidx: int, channel: int, ghost table: Table) returns (r: Found)
    requires Holds(res, table)
    ensures Popcount(mt) != 1 || !(0 <= streamidx < |table|) || channel >= |table[streamidx]| ==> r == Word(-1)
    ensures Popcount(mt) == 1 && 0 <= streamidx < |table| && channel < |table[streamidx]| ==>
              && Bit(mt, LowBit(mt))
              && (forall k :: channel >= 0 && Bit(mt, k) ==> r == Reading(res.mt, table, streamidx, channel, k))
              && (forall k :: channel >= 0 && Bit(mt, k) && Bit(res.mt, k) ==> r == Word(table[streamidx][channel](k)))
              && (forall k :: channel < 0 && Bit(mt, k) ==>
                    r == WordAt(res.data, Offset(res.mt, table, streamidx) + 1 + channel * Popcount(res.mt)
                                          + Rank(res.mt, k)))
  {
    hide Offset, Packed, Reading;
    var ptr := GetStreamPtr(res, streamidx, table);
    var bits := Numbits(mt);
    if bits != 1 {
      return Word(-1);
    }
    if ptr == -1 {
      return Word(-1);
    }
    PackedAt(res.mt, table, streamidx, 0, 0);
    var numchans := res.data[ptr] % 0x1_0000;
    if channel >= numchans {
      return Word(-1);
    }
    ptr := ptr + 1;
    ptr := ptr + channel * res.nummt;
    ptr := SkipBits(ptr, mt, res.mt);
    r := WordAt(res.data, ptr);
    SingleBit(mt);
    if channel >= 0 {
      Start(channel, res.nummt);
      SlotReads(res.mt, table, streamidx, channel, LowBit(mt));
      forall k: nat | Bit(mt, k) && Bit(res.mt, k) ensures r == Word(table[streamidx][channel](k)) {
        RequestedIsRead(res.mt, table, streamidx, channel, k);
      }
    }
  }

  lemma RequestedIsRead(mt: nat, table: Table, s: nat, c: nat, k: nat)
    requires s < |table| && c < |table[s]| && Bit(mt, k)
    ensures Reading(mt, table, s, c, k) == Word(table[s][c](k))
  {
    NextIsNext(mt, k);
  }

  /** The loop that skips the values of the requested types below the one asked for. */
  method SkipBits(at: int, mt: nat, requested: nat) returns (ptr: int)
    requires mt > 0
    ensures ptr == at + Rank(requested, LowBit(mt))
  {
    ptr := at;
    var m, resmt := mt, requested;
    while m % 2 != 1
      invariant m > 0
      invariant ptr + Rank(resmt, LowBit(m)) == at + Rank(requested, LowBit(mt))
      decreases m
    {
      if resmt % 2 == 1 {
        ptr := ptr + 1;
      }
      m := m / 2;
      resmt := resmt / 2;
    }
  }
}
