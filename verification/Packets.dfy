/** What the encoding side of the transcoder emits: how a byte stream arriving in
    arbitrary chunks is cut into packets of p bytes, and what stays buffered. */
module Packets {
  import opened CInt
  import opened Util

  /** Packets sent and bytes kept. */
  datatype Cut = Cut(packets: seq<seq<byte>>, rest: seq<byte>)

  /** With nothing buffered: every full packet goes out at once. */
  function CutFull(p: nat, s: seq<byte>): Cut
    requires p > 0
    decreases |s|
  {
    if |s| < p then Cut([], s)
    else var c := CutFull(p, s[p..]); Cut([s[..p]] + c.packets, c.rest)
  }

  /** With bytes buffered: packets go out while the byte count, kept in an int, exceeds p.
      (The second test follows from the first; it only makes the recursion evident.) */
  function CutBuffered(p: nat, s: seq<byte>): Cut
    requires p > 0
    decreases |s|
  {
    if ToInt32(|s|) <= p || |s| <= p then Cut([], s)
    else var c := CutBuffered(p, s[p..]); Cut([s[..p]] + c.packets, c.rest)
  }

  function Encode(p: nat, pending: seq<byte>, data: seq<byte>): Cut
    requires p > 0
  {
    if pending == [] then CutFull(p, data) else CutBuffered(p, pending + data)
  }

  /** All chunks in turn, from an empty buffer. */
  function Run(p: nat, chunks: seq<seq<byte>>): Cut
    requires p > 0
  {
    if chunks == [] then Cut([], [])
    else
      var before := Run(p, chunks[..|chunks| - 1]);
      var c := Encode(p, before.rest, chunks[|chunks| - 1]);
      Cut(before.packets + c.packets, c.rest)
  }

  ghost predicate AllOfSize(p: nat, packets: seq<seq<byte>>) {
    forall i :: 0 <= i < |packets| ==> |packets[i]| == p
  }

  // ---------- laws ----------

  /** One more packet in front keeps what is known of the rest. */
  lemma ConsPacket(p: nat, s: seq<byte>, c: Cut)
    requires p <= |s| && Flatten(c.packets) + c.rest == s[p..] && AllOfSize(p, c.packets)
    ensures Flatten([s[..p]] + c.packets) + c.rest == s
    ensures AllOfSize(p, [s[..p]] + c.packets)
  {
    FlattenCons(s[..p], c.packets);
    assert s == s[..p] + (Flatten(c.packets) + c.rest);
  }

  lemma {:induction false} CutFullKeeps(p: nat, s: seq<byte>)
    requires p > 0
    ensures var c := CutFull(p, s);
            Flatten(c.packets) + c.rest == s && AllOfSize(p, c.packets) && |c.rest| < p
    decreases |s|
  {
    hide Flatten, AllOfSize;
    if |s| >= p {
      CutFullKeeps(p, s[p..]);
      ConsPacket(p, s, CutFull(p, s[p..]));
    } else {
      FlatNil(p);
    }
  }

  lemma FlatNil(p: nat)
    ensures Flatten<byte>([]) == [] && AllOfSize(p, [])
  {
  }

  /** Conservation holds for any amount of bytes, wrapped count or not. */
  lemma {:induction false} CutBufferedKeeps(p: nat, s: seq<byte>)
    requires p > 0 && s != []
    ensures var c := CutBuffered(p, s);
            Flatten(c.packets) + c.rest == s && AllOfSize(p, c.packets) && c.rest != []
    decreases |s|
  {
    hide Flatten, AllOfSize;
    if ToInt32(|s|) <= p || |s| <= p {
      FlatNil(p);
    } else {
      CutBufferedKeeps(p, s[p..]);
      ConsPacket(p, s, CutBuffered(p, s[p..]));
    }
  }

  // ---------- how much is held back ----------

  lemma ModUnique(p: nat, q: int, r: nat)
    requires r < p
    ensures (p * q + r) % p == r
  {
    var n := p * q + r;
    var d := n / p - q;
    assert (d > 0 ==> p * d >= p) && (d < 0 ==> p * d + p <= 0);
    assert n == p * (n / p) + n % p;
    assert p * d == r - n % p;
  }

  lemma ModMinus(n: nat, p: nat)
    requires 0 < p <= n
    ensures (n - p) % p == n % p
  {
    ModUnique(p, n / p - 1, n % p);
    assert n - p == p * (n / p - 1) + n % p;
  }

  lemma {:induction false} CutFullRest(p: nat, s: seq<byte>)
    requires p > 0
    ensures |CutFull(p, s).rest| == |s| % p
    decreases |s|
  {
    if |s| >= p {
      CutFullRest(p, s[p..]);
      ModMinus(|s|, p);
    }
  }

  /** The byte count is an int. The packetiser holds back at most a packet exactly when the
      count fits one (or there is no packet to send anyway); else it holds back at least 2^31
      bytes, whatever the wrapped count was. */
  lemma {:induction false} WrappedCountHoldsBack(p: nat, s: seq<byte>)
    requires p > 0
    ensures var rest := CutBuffered(p, s).rest;
            && (|rest| <= p <==> |s| < 0x8000_0000 || |s| <= p)
            && (|rest| > p ==> |rest| >= 0x8000_0000)
    decreases |s|
  {
    if ToInt32(|s|) > p && |s| > p {
      WrappedCountHoldsBack(p, s[p..]);
    }
  }

  /** How much it holds back then: never nothing. */
  lemma {:induction false} CutBufferedRest(p: nat, s: seq<byte>)
    requires p > 0 && s != [] && (|s| < 0x8000_0000 || |s| <= p)
    ensures |CutBuffered(p, s).rest| == (|s| - 1) % p + 1
    decreases |s|
  {
    if |s| <= p {
      ModUnique(p, 0, |s| - 1);
    } else {
      var n := |s| - 1;
      CutBufferedRest(p, s[p..]);
      assert |s[p..]| - 1 == n - p;
      ModMinus(n, p);
    }
  }

  /** What is held back would be held back again. */
  lemma {:induction false} RestStays(p: nat, s: seq<byte>)
    requires p > 0
    ensures var rest := CutBuffered(p, s).rest;
            CutBuffered(p, rest) == Cut([], rest)
    decreases |s|
  {
    if ToInt32(|s|) > p && |s| > p {
      RestStays(p, s[p..]);
    }
  }

  /** The bytes held after a call with n more, h being held before. */
  function HeldAfter(p: nat, h: nat, n: nat): nat
    requires p > 0
  {
    if h == 0 then n % p else (h + n - 1) % p + 1
  }

  /** The bytes held after a run, from the sizes of its chunks alone. */
  function Held(p: nat, chunks: seq<seq<byte>>): nat
    requires p > 0
  {
    if chunks == [] then 0 else HeldAfter(p, Held(p, chunks[..|chunks| - 1]), |chunks[|chunks| - 1]|)
  }

  /** No byte count of a run wraps while there is a packet to send. */
  predicate Fits(p: nat, chunks: seq<seq<byte>>)
    requires p > 0
  {
    chunks == [] ||
    var n := |chunks| - 1;
    var h := Held(p, chunks[..n]);
    Fits(p, chunks[..n]) && (h == 0 || h + |chunks[n]| < 0x8000_0000 || h + |chunks[n]| <= p)
  }

  /** Over every run at most a packet is held back exactly when no byte count wraps, and then
      as many bytes as the sizes of the chunks say; once a count has wrapped it stays so. */
  lemma {:induction false} RunHolds(p: nat, chunks: seq<seq<byte>>)
    requires p > 0
    ensures var rest := Run(p, chunks).rest;
            && (|rest| <= p <==> Fits(p, chunks))
            && (|rest| <= p ==> |rest| == Held(p, chunks))
            && (|rest| > p ==> |rest| >= 0x8000_0000)
    decreases |chunks|
  {
    hide CutFull, CutBuffered;
    if chunks != [] {
      var n := |chunks| - 1;
      RunHolds(p, chunks[..n]);
      var h := Run(p, chunks[..n]).rest;
      if h == [] {
        CutFullRest(p, chunks[n]);
      } else {
        var all := h + chunks[n];
        WrappedCountHoldsBack(p, all);
        if |all| < 0x8000_0000 || |all| <= p {
          CutBufferedRest(p, all);
        }
      }
    }
  }

  /** A bound on every chunk is enough. */
  lemma {:induction false} SmallChunksFit(p: nat, chunks: seq<seq<byte>>)
    requires p > 0 && forall i :: 0 <= i < |chunks| ==> p + |chunks[i]| < 0x8000_0000
    ensures Fits(p, chunks) && Held(p, chunks) <= p
    decreases |chunks|
  {
    if chunks != [] {
      var n := |chunks| - 1;
      SmallChunksFit(p, chunks[..n]);
    }
  }

  /** Over every sequence of chunks no byte is lost, duplicated or reordered, every packet
      is exactly p bytes, and at most p bytes are held back exactly when no count wraps. */
  lemma {:induction false} RunKeeps(p: nat, chunks: seq<seq<byte>>)
    requires p > 0
    ensures var c := Run(p, chunks);
            && Flatten(c.packets) + c.rest == Flatten(chunks) && AllOfSize(p, c.packets)
            && (|c.rest| <= p <==> Fits(p, chunks))
    decreases |chunks|
  {
    hide Flatten, Fits;
    FlatNil(p);
    RunHolds(p, chunks);
    if chunks != [] {
      var n := |chunks| - 1;
      var before := Run(p, chunks[..n]);
      RunKeeps(p, chunks[..n]);
      EncodeKeeps(p, before.rest, chunks[n]);
      var c := Encode(p, before.rest, chunks[n]);
      FlattenAppend(before.packets, c.packets);
      FlattenLast(chunks);
      Regroup(Flatten(before.packets), before.rest, chunks[n], Flatten(c.packets), c.rest);
    }
  }

  lemma Regroup(sent: seq<byte>, kept: seq<byte>, data: seq<byte>, more: seq<byte>, rest: seq<byte>)
    requires more + rest == kept + data
    ensures (sent + more) + rest == (sent + kept) + data
  {
    assert (sent + more) + rest == sent + (more + rest);
  }

  /** One call sends and keeps exactly what was held plus what came in, and keeps at most a
      packet exactly when nothing was held or the byte count does not wrap. */
  lemma EncodeKeeps(p: nat, pending: seq<byte>, data: seq<byte>)
    requires p > 0
    ensures var c := Encode(p, pending, data);
            && Flatten(c.packets) + c.rest == pending + data && AllOfSize(p, c.packets)
            && (pending != [] ==> c.rest != [])
            && (|c.rest| <= p <==> pending == [] || |pending + data| < 0x8000_0000 || |pending + data| <= p)
  {
    hide Flatten;
    if pending == [] {
      CutFullKeeps(p, data);
      assert pending + data == data;
    } else {
      CutBufferedKeeps(p, pending + data);
      WrappedCountHoldsBack(p, pending + data);
    }
  }

  /** Packets of equal size cut from one stream agree as far as both go; when at most
      p bytes are held back, the counts differ by at most one. */
  lemma {:induction false} SameStreamSamePackets(p: nat, x: Cut, y: Cut)
    requires p > 0 && AllOfSize(p, x.packets) && AllOfSize(p, y.packets)
    requires |x.rest| <= p && |y.rest| <= p && |x.packets| <= |y.packets|
    requires Flatten(x.packets) + x.rest == Flatten(y.packets) + y.rest
    ensures x.packets <= y.packets
    ensures x == y || (y.packets == x.packets + [x.rest] && |x.rest| == p && y.rest == [])
    decreases |x.packets|
  {
    hide Flatten;
    if x.packets == [] {
      FlatNil(p);
      if y.packets != [] {
        OnePacketLeft(p, x.rest, y);
      } else {
        assert Flatten(x.packets) == [] && Flatten(y.packets) == [];
        assert [] + x.rest == x.rest && [] + y.rest == y.rest;
      }
    } else {
      Tails(p, x);
      Tails(p, y);
      SameStreamSamePackets(p, Cut(x.packets[1..], x.rest), Cut(y.packets[1..], y.rest));
      assert x.packets == [x.packets[0]] + x.packets[1..] && y.packets == [y.packets[0]] + y.packets[1..];
      assert y.packets[1..] == x.packets[1..] + [x.rest] ==> y.packets == x.packets + [x.rest];
    }
  }

  lemma Tails(p: nat, x: Cut)
    requires x.packets != [] && |x.packets[0]| == p
    ensures var s := Flatten(x.packets) + x.rest;
            |s| >= p && s[..p] == x.packets[0] && s[p..] == Flatten(x.packets[1..]) + x.rest
  {
    assert Flatten(x.packets) + x.rest == x.packets[0] + (Flatten(x.packets[1..]) + x.rest);
  }

  lemma TooManyBytes(p: nat, packets: seq<seq<byte>>)
    requires AllOfSize(p, packets)
    ensures packets != [] ==> |Flatten(packets)| >= p
  {
  }

  lemma OnePacketLeft(p: nat, s: seq<byte>, y: Cut)
    requires p > 0 && y.packets != [] && AllOfSize(p, y.packets)
    requires |s| <= p && s == Flatten(y.packets) + y.rest
    ensures y.packets == [s] && |s| == p && y.rest == []
  {
    Tails(p, y);
    TooManyBytes(p, y.packets[1..]);
    assert s[p..] == [];
    assert y.packets[0] == s[..p] == s;
    assert |s[p..]| == |Flatten(y.packets[1..])| + |y.rest|;
  }

  /** Two ways of cutting one stream into chunks emit the same packets, except that one
      of them may still hold back one full last packet. */
  lemma ChunkingHardlyMatters(p: nat, chunks: seq<seq<byte>>, others: seq<seq<byte>>)
    requires p > 0 && Fits(p, chunks) && Fits(p, others) && Flatten(chunks) == Flatten(others)
    requires |Run(p, chunks).packets| <= |Run(p, others).packets|
    ensures var x, y := Run(p, chunks), Run(p, others);
            x == y || (y.packets == x.packets + [x.rest] && |x.rest| == p && y.rest == [])
  {
    RunKeeps(p, chunks);
    RunKeeps(p, others);
    SameStreamSamePackets(p, Run(p, chunks), Run(p, others));
  }

  /** After every run a flush with no data sends nothing. */
  lemma FlushSendsNothing(p: nat, chunks: seq<seq<byte>>)
    requires p > 0
    ensures Encode(p, Run(p, chunks).rest, []) == Cut([], Run(p, chunks).rest)
  {
    var r := Run(p, chunks).rest;
    assert r + [] == r;
    if chunks != [] && r != [] {
      var n := |chunks| - 1;
      var h := Run(p, chunks[..n]).rest;
      if h == [] {
        CutFullKeeps(p, chunks[n]);
      } else {
        RestStays(p, h + chunks[n]);
      }
    }
  }

  /** So the end of the input is lost on close, except exactly when every chunk was a whole
      number of packets. */
  lemma {:induction false} NothingHeld(p: nat, chunks: seq<seq<byte>>)
    requires p > 0
    ensures Run(p, chunks).rest == [] <==> forall i :: 0 <= i < |chunks| ==> |chunks[i]| % p == 0
    decreases |chunks|
  {
    if chunks != [] {
      var n := |chunks| - 1;
      NothingHeld(p, chunks[..n]);
      var h := Run(p, chunks[..n]).rest;
      CutFullRest(p, chunks[n]);
      EncodeKeeps(p, h, chunks[n]);
      if h != [] {
        var i :| 0 <= i < n && |chunks[..n][i]| % p != 0;
        assert |chunks[i]| % p != 0;
      }
    }
  }

  /** The packets of a run are all its input exactly when every chunk was a whole number of packets. */
  lemma AllSent(p: nat, chunks: seq<seq<byte>>)
    requires p > 0
    ensures Flatten(Run(p, chunks).packets) == Flatten(chunks)
            <==> forall i :: 0 <= i < |chunks| ==> |chunks[i]| % p == 0
  {
    NothingHeld(p, chunks);
    RunKeeps(p, chunks);
    var c := Run(p, chunks);
    assert |Flatten(c.packets) + c.rest| == |Flatten(c.packets)| + |c.rest|;
    assert c.rest == [] ==> Flatten(c.packets) + c.rest == Flatten(c.packets);
  }

  lemma CutBufferedStep(p: nat, s: seq<byte>)
    requires p > 0
    ensures ToInt32(|s|) <= p ==> CutBuffered(p, s) == Cut([], s)
    ensures ToInt32(|s|) > p ==>
              && |s| > p
              && var more := CutBuffered(p, s[p..]);
                 CutBuffered(p, s) == Cut([s[..p]] + more.packets, more.rest)
  {
  }

  /** c is what was done followed by what the rest of the input will give. */
  ghost predicate Continues(c: Cut, done: seq<seq<byte>>, more: Cut) {
    c.packets == done + more.packets && c.rest == more.rest
  }

  lemma ContinuesStep(c: Cut, done: seq<seq<byte>>, packet: seq<byte>, more: Cut)
    requires Continues(c, done, Cut([packet] + more.packets, more.rest))
    ensures Continues(c, done + [packet], more)
  {
    assert done + ([packet] + more.packets) == (done + [packet]) + more.packets;
  }

  lemma ContinuesEnd(c: Cut, done: seq<seq<byte>>, rest: seq<byte>)
    requires Continues(c, done, Cut([], rest))
    ensures c == Cut(done, rest)
  {
  }

  lemma ContinuesPrefix(c: Cut, done: seq<seq<byte>>, more: Cut)
    requires Continues(c, done, more)
    ensures done <= c.packets
  {
  }

  lemma ContinuesNothing(c: Cut)
    ensures Continues(c, [], c)
  {
    assert [] + c.packets == c.packets;
  }

  lemma CutFullAt(p: nat, s: seq<byte>, off: nat)
    requires p > 0 && off <= |s|
    ensures |s| - off < p ==> CutFull(p, s[off..]) == Cut([], s[off..])
    ensures |s| - off >= p ==>
              var more := CutFull(p, s[off + p..]);
              CutFull(p, s[off..]) == Cut([s[off..off + p]] + more.packets, more.rest)
  {
    if |s| - off >= p {
      assert s[off..][..p] == s[off..off + p] && s[off..][p..] == s[off + p..];
    }
  }
}
