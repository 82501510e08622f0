/** The encoding side of struct roar_xcoder over the buffer chain. The codec's packet
    size and the outcome of each call to its encode callback are parameters; packets
    the callback accepted are recorded in sent. */
module Transcode {
  import opened CInt
  import opened Buffer
  import opened Packets
  import opened Util

  /** Calls was, was+1, ... of the codec accepted n packets; a failure is one more call that
      was refused, or a missing backend. */
  ghost predicate Answered(accepts: nat -> bool, hasBackend: bool, was: nat, now: nat, n: nat, ok: bool) {
    && (forall k: nat :: was <= k < was + n ==> accepts(k))
    && (if ok || !hasBackend then now == was + n else now == was + n + 1 && !accepts(was + n))
  }

  lemma AnsweredNone(accepts: nat -> bool, hasBackend: bool, was: nat)
    ensures Answered(accepts, hasBackend, was, was, 0, true)
  {
  }

  lemma AnsweredStep(accepts: nat -> bool, hasBackend: bool, was: nat, now: nat, later: nat, n: nat, ok: bool)
    requires Answered(accepts, hasBackend, was, now, n, true)
    requires Answered(accepts, hasBackend, now, later, if ok then 1 else 0, ok)
    ensures Answered(accepts, hasBackend, was, later, if ok then n + 1 else n, ok)
  {
  }

  /** Plain nodes whose memory belongs to the coder. */
  ghost predicate Owns(owned: set<object>, nodes: seq<Node>) {
    forall i :: 0 <= i < |nodes| ==> nodes[i] in owned && nodes[i].data in owned && !nodes[i].ring
  }

  lemma OwnsParts(owned: set<object>, x: seq<Node>, y: seq<Node>)
    ensures Owns(owned, x + y) <==> Owns(owned, x) && Owns(owned, y)
  {
    if Owns(owned, x + y) {
      forall i | 0 <= i < |x| ensures x[i] == (x + y)[i] {
      }
      forall i | 0 <= i < |y| ensures y[i] == (x + y)[|x| + i] {
      }
    }
  }

  lemma OwnsOneMore(owned: set<object>, b: Node, nodes: seq<Node>)
    requires Owns(owned, nodes) && !b.ring
    ensures Owns(owned + {b, b.data}, nodes) && Owns(owned + {b, b.data}, nodes + [b])
  {
  }

  lemma OwnsAll(owned: set<object>, nodes: seq<Node>)
    requires Owns(owned, nodes)
    ensures forall n :: n in nodes ==> n in owned && n.data in owned
  {
  }

  /** AppendData beside freed nodes, which stay freed; owned grows by the new node. */
  method AppendBeside(buf: Node, data: seq<byte>, ghost chain: seq<Node>, ghost gone: seq<Node>, ghost owned: set<object>)
    returns (b: Node)
    requires IsChain(buf, chain) && AllFreed(gone) && Owns(owned, chain) && Owns(owned, gone) && chain != []
    modifies chain`next
    ensures fresh(b) && fresh(b.data)
    ensures IsChain(buf, chain + [b]) && Contents(chain + [b]) == old(Contents(chain)) + data
    ensures AllFreed(gone) && Owns(owned + {b, b.data}, chain + [b]) && Owns(owned + {b, b.data}, gone)
  {
    ChainStep(buf, chain);
    assert !buf.ring;
    hide Contents, IsChain, Owns;
    b := AppendData(buf, data, chain);
    OwnsOneMore(owned, b, chain);
    OwnsOneMore(owned, b, gone);
  }

  class Xcoder {
    const codecSize: int             // what entry->packet_size(state, -1) returns
    const hasBackend: bool
    const accepts: nat -> bool       // whether the n-th call of the encode callback succeeds
    var packetLen: int               // -1 until first asked
    var iobuffer: Node?
    var calls: nat
    var sent: seq<seq<byte>>
    ghost var chain: seq<Node>
    ghost var gone: seq<Node>        // the nodes that were in the chain before
    ghost var owned: set<object>     // the nodes of the chain and their data

    ghost predicate Valid()
      reads this, owned
    {
      && packetLen >= -1 && codecSize >= -1
      && this !in owned
      && Owns(owned, chain)
      && IsChain(iobuffer, chain)
      && (iobuffer != null ==> packetLen > 0 && Contents(chain) != [])
    }

    /** No node leaks: those that left the chain are freed. */
    ghost predicate Tidy()
      reads this`gone, gone`freed, this`owned
    {
      AllFreed(gone) && Owns(owned, gone)
    }

    /** The bytes held back. */
    ghost function Pending(): seq<byte>
      requires Valid()
      reads this, owned
    {
      Contents(chain)
    }

    constructor (codecSize: int, hasBackend: bool, accepts: nat -> bool)
      requires codecSize >= -1
      ensures Valid() && Tidy() && gone + chain == []
      ensures Pending() == [] && sent == [] && packetLen == -1 && owned == {}
      ensures this.codecSize == codecSize && this.hasBackend == hasBackend && this.accepts == accepts
    {
      this.codecSize, this.hasBackend, this.accepts := codecSize, hasBackend, accepts;
      packetLen, iobuffer, calls, sent, chain, gone, owned := -1, null, 0, [], [], [], {};
    }

    /** roar_xcoder_packet_size with samples = -1; 44100/100 stands for "any size". */
    method PacketSize() returns (r: int)
      modifies this`packetLen
      ensures packetLen == codecSize
      ensures r == if codecSize == 0 then 441 else codecSize
    {
      packetLen := codecSize;
      if packetLen == 0 {
        return 441;
      }
      return packetLen;
    }

    method ProcPacket(buf: seq<byte>) returns (ok: bool)
      modifies this`calls, this`sent
      ensures ok <==> hasBackend && (packetLen > 0 ==> packetLen == |buf|) && accepts(old(calls))
      ensures sent == if ok then old(sent) + [buf] else old(sent)
      ensures (packetLen > 0 ==> packetLen == |buf|) ==>
                Answered(accepts, hasBackend, old(calls), calls, if ok then 1 else 0, ok)
    {
      if !hasBackend {
        return false;
      }
      if packetLen > 0 && packetLen != |buf| {
        return false;
      }
      ok := accepts(calls);
      calls := calls + 1;
      if ok {
        sent := sent + [buf];
      }
    }

    /** The first loop: full packets go straight out of the caller's buffer. After a failed
        packet the rest of the data was not looked at. */
    method SendFull(data: seq<byte>) returns (ok: bool, off: nat, ghost done: seq<seq<byte>>)
      requires packetLen > 0
      modifies this`calls, this`sent
      ensures sent == old(sent) + done && done <= CutFull(packetLen, data).packets
      ensures Answered(accepts, hasBackend, old(calls), calls, |done|, ok)
      ensures ok ==> off <= |data| && CutFull(packetLen, data) == Cut(done, data[off..])
    {
      hide CutFull, Continues;
      off, ok, done := 0, true, [];
      ghost var c := CutFull(packetLen, data);
      assert data[0..] == data;
      ContinuesNothing(c);
      while |data| - off >= packetLen
        invariant off <= |data|
        invariant sent == old(sent) + done
        invariant Continues(c, done, CutFull(packetLen, data[off..]))
        invariant Answered(accepts, hasBackend, old(calls), calls, |done|, true)
      {
        var packet := data[off..off + packetLen];
        CutFullAt(packetLen, data, off);
        ContinuesPrefix(c, done, CutFull(packetLen, data[off..]));
        ContinuesStep(c, done, packet, CutFull(packetLen, data[off + packetLen..]));
        ok := ProcPacket(packet);
        if !ok {
          return;
        }
        off := off + packetLen;
        done := done + [packet];
      }
      CutFullAt(packetLen, data, off);
      ContinuesEnd(c, done, data[off..]);
    }

    /** The call with nothing buffered: full packets go out, the remainder is kept. */
    method ProcDirect(data: seq<byte>) returns (ok: bool, ghost done: seq<seq<byte>>)
      requires Valid() && Tidy() && packetLen > 0 && iobuffer == null
      modifies this`calls, this`sent, this`iobuffer, this`chain, this`owned
      ensures Valid() && Tidy() && old(gone + chain) <= gone + chain && fresh(owned - old(owned))
      ensures sent == old(sent) + done && done <= CutFull(packetLen, data).packets
      ensures Answered(accepts, hasBackend, old(calls), calls, |done|, ok)
      ensures if ok then CutFull(packetLen, data) == Cut(done, Pending()) else Pending() == []
    {
      hide Contents, CutFull, AllFreed;
      ContentsNil();
      ChainStep(iobuffer, chain);
      var off: nat;
      ok, off, done := SendFull(data);
      if !ok {
        return;
      }
      if off == |data| {
        return;
      }
      var b := NewBuffer(data[off..]);
      iobuffer := b;
      chain := [b];
      owned := owned + {b, b.data};
    }

    /** Shifts one packet out of the chain into b; the short count the source guards
        against cannot occur. */
    method TakePacket(b: Node)
      requires Valid() && Tidy() && packetLen > 0 && |Pending()| > packetLen
      requires b.data.Length == packetLen && b.data !in owned
      modifies this`iobuffer, this`chain, this`gone, owned, b.data
      ensures Valid() && Tidy() && b.data[..] == old(Pending())[..packetLen]
      ensures Pending() == old(Pending())[packetLen..]
      ensures gone + chain == old(gone + chain)
    {
      hide Contents, IsChain, AllFreed, Owns;
      ChainStep(iobuffer, chain);
      ContentsNil();
      OwnsAll(owned, chain);
      var head, got;
      ghost var rest, dropped;
      head, got, rest, dropped := ShiftOutOf(iobuffer, b.data, packetLen, chain, gone);
      iobuffer := head;
      OwnsParts(owned, dropped, rest);
      OwnsParts(owned, gone, dropped);
      chain, gone := rest, gone + dropped;
      assert b.data[..] == b.data[..got];
      if got < packetLen {
        assert false;
      }
    }

    /** Puts the new bytes behind the ones held back. */
    method Append(data: seq<byte>)
      requires Valid() && Tidy() && iobuffer != null
      modifies this`chain, this`owned, owned
      ensures Valid() && Tidy() && iobuffer == old(iobuffer) && old(chain) <= chain
      ensures Pending() == old(Pending()) + data
      ensures fresh(owned - old(owned))
    {
      hide Contents, IsChain, AllFreed, Owns;
      ChainStep(iobuffer, chain);
      OwnsAll(owned, chain);
      var b := AppendBeside(iobuffer, data, chain, gone, owned);
      chain := chain + [b];
      owned := owned + {b, b.data};
    }

    /** Takes one packet out of the chain and hands it to the codec. */
    method SendPacket(b: Node) returns (ok: bool)
      requires Valid() && Tidy() && packetLen > 0 && |Pending()| > packetLen
      requires b.data.Length == packetLen && b.data !in owned
      modifies this`iobuffer, this`chain, this`gone, this`calls, this`sent, owned, b.data
      ensures Valid() && Tidy() && gone + chain == old(gone + chain)
      ensures iobuffer != null && Pending() == old(Pending())[packetLen..]
      ensures sent == if ok then old(sent) + [old(Pending())[..packetLen]] else old(sent)
      ensures Answered(accepts, hasBackend, old(calls), calls, if ok then 1 else 0, ok)
    {
      hide Contents, AllFreed, Owns;
      TakePacket(b);
      ContentsNil();
      ChainStep(iobuffer, chain);
      ok := ProcPacket(b.data[..]);
    }

    /** The loop of the buffered call. A refused packet was already taken from the chain. */
    method SendBuffered(b: Node) returns (ok: bool, ghost done: seq<seq<byte>>, ghost lost: seq<byte>)
      requires Valid() && Tidy() && packetLen > 0 && iobuffer != null
      requires b.data.Length == packetLen && b.data !in owned
      modifies this`iobuffer, this`chain, this`gone, this`calls, this`sent, owned, b.data
      ensures Valid() && Tidy() && gone + chain == old(gone + chain)
      ensures iobuffer != null && sent == old(sent) + done
      ensures Answered(accepts, hasBackend, old(calls), calls, |done|, ok)
      ensures ok ==> CutBuffered(packetLen, old(Pending())) == Cut(done, Pending())
      ensures !ok ==> Continues(CutBuffered(packetLen, old(Pending())), done + [lost], CutBuffered(packetLen, Pending()))
    {
      hide Contents, ToInt32, CutBuffered, Continues, IsChain, Answered, AllFreed, Owns;
      done, lost := [], [];
      AnsweredNone(accepts, hasBackend, calls);
      ghost var c := CutBuffered(packetLen, Pending());
      ContinuesNothing(c);
      var parts, bytes := RingStats(iobuffer, chain);
      while bytes > packetLen
        invariant Valid() && Tidy() && gone + chain == old(gone + chain) && iobuffer != null
        invariant bytes == ToInt32(|Pending()|)
        invariant sent == old(sent) + done
        invariant Continues(c, done, CutBuffered(packetLen, Pending()))
        invariant Answered(accepts, hasBackend, old(calls), calls, |done|, true)
        decreases |Pending()|
      {
        CutBufferedStep(packetLen, Pending());
        ghost var packet := Pending()[..packetLen];
        ContinuesStep(c, done, packet, CutBuffered(packetLen, Pending()[packetLen..]));
        ghost var now := calls;
        ok := SendPacket(b);
        AnsweredStep(accepts, hasBackend, old(calls), now, calls, |done|, ok);
        if !ok {
          lost := packet;
          return;
        }
        done := done + [packet];
        parts, bytes := RingStats(iobuffer, chain);
      }
      CutBufferedStep(packetLen, Pending());
      ContinuesEnd(c, done, Pending());
      ok := true;
    }

    /** The call with bytes buffered. */
    method ProcBuffered(data: seq<byte>) returns (ok: bool, ghost done: seq<seq<byte>>, ghost lost: seq<byte>)
      requires Valid() && Tidy() && packetLen > 0 && iobuffer != null
      modifies this`calls, this`sent, this`iobuffer, this`chain, this`gone, this`owned, owned
      ensures Valid() && Tidy() && old(gone + chain) <= gone + chain
      ensures iobuffer != null && fresh(owned - old(owned)) && sent == old(sent) + done
      ensures Answered(accepts, hasBackend, old(calls), calls, |done|, ok)
      ensures ok ==> CutBuffered(packetLen, old(Pending()) + data) == Cut(done, Pending())
      ensures !ok ==> Continues(CutBuffered(packetLen, old(Pending()) + data), done + [lost], CutBuffered(packetLen, Pending()))
    {
      hide Contents, CutBuffered, IsChain, AllFreed, Owns;
      Append(data);
      assert old(gone + chain) <= gone + chain;
      var bufbuf := new Node(packetLen);
      ok, done, lost := SendBuffered(bufbuf);
      OwnsAll(owned, gone);
      SingleChain(bufbuf);
      Free(bufbuf, [bufbuf]);
    }

    /** roar_xcoder_proc when encoding. With a known packet length it sends and keeps what
        Encode says; with packet length 0 every call is one packet. A failed call sends only
        leading packets of those, and from the chain loses at most the refused packet. */
    method Proc(data: seq<byte>) returns (ok: bool, ghost done: seq<seq<byte>>, ghost lost: seq<byte>)
      requires Valid() && Tidy()
      modifies this`packetLen, this`calls, this`sent, this`iobuffer, this`chain, this`gone, this`owned, owned
      ensures Valid() && Tidy() && old(gone + chain) <= gone + chain
      ensures fresh(owned - old(owned)) && sent == old(sent) + done
      ensures packetLen == if old(packetLen) == -1 then codecSize else old(packetLen)
      ensures old(Pending()) != [] ==> Pending() != []
      ensures packetLen == -1 ==> !ok && done == [] && calls == old(calls)
      ensures packetLen != -1 ==> Answered(accepts, hasBackend, old(calls), calls, |done|, ok)
      ensures packetLen == 0 ==> Pending() == [] && done == if ok then [data] else []
      ensures packetLen > 0 && ok ==> Encode(packetLen, old(Pending()), data) == Cut(done, Pending())
      ensures packetLen > 0 && !ok && old(Pending()) == [] ==>
                Pending() == [] && done <= CutFull(packetLen, data).packets
      ensures packetLen > 0 && !ok && old(Pending()) != [] ==>
                Continues(CutBuffered(packetLen, old(Pending()) + data), done + [lost], CutBuffered(packetLen, Pending()))
    {
      hide Contents, CutBuffered, CutFull, IsChain, Continues, AllFreed, Owns;
      done, lost := [], [];
      NothingPending();
      if packetLen == -1 {
        var r := PacketSize();
        if r == -1 {
          return false, [], [];
        }
      }
      if packetLen == 0 {
        ok := ProcPacket(data);
        if ok {
          done := [data];
        }
        return;
      }
      if iobuffer == null {
        ok, done := ProcDirect(data);
      } else {
        ok, done, lost := ProcBuffered(data);
      }
    }

    lemma NothingPending()
      requires Valid()
      ensures Pending() == [] <==> iobuffer == null
    {
    }

    /** roar_xcoder_close: it tries a flush, and every node the coder ever held is freed. When
        the flush has nothing to send, as after every run (FlushSendsNothing), the bytes held
        never reach the codec. */
    method Close()
      requires Valid() && Tidy()
      modifies this`packetLen, this`calls, this`sent, this`iobuffer, this`chain, this`gone, this`owned, owned
      ensures old(packetLen) > 0 && Encode(old(packetLen), old(Pending()), []).packets == [] ==> sent == old(sent)
      ensures old(Pending()) == [] ==> sent == old(sent)
      ensures forall i :: 0 <= i < |old(gone + chain)| ==> old(gone + chain)[i].freed
    {
      hide Contents, IsChain, CutBuffered, CutFull, Owns;
      NothingPending();
      ChainStep(iobuffer, chain);
      if iobuffer != null {
        var ok;
        ghost var done, lost;
        ok, done, lost := Proc([]);
        NothingPending();
        ChainStep(iobuffer, chain);
        OwnsAll(owned, chain);
        Free(iobuffer, chain);
        assert forall i :: 0 <= i < |gone + chain| ==> (gone + chain)[i].freed;
      }
    }
  }

  /** A new encoder fed any chunks has sent and holds exactly what Run says; it fails only if
      the codec refuses a packet or there is no backend. */
  method EncodeStream(codecSize: int, hasBackend: bool, accepts: nat -> bool, chunks: seq<seq<byte>>)
    returns (ok: bool, x: Xcoder)
    requires codecSize > 0
    ensures fresh(x) && fresh(x.owned) && x.Valid() && x.Tidy()
    ensures hasBackend && (forall n: nat :: accepts(n)) ==> ok
    ensures ok ==> Run(codecSize, chunks) == Cut(x.sent, x.Pending())
    ensures ok && chunks != [] ==> x.packetLen == codecSize
  {
    hide Encode, Contents, IsChain, AllFreed, Owns;
    x := new Xcoder(codecSize, hasBackend, accepts);
    ok := true;
    for i := 0 to |chunks|
      invariant x.Valid() && x.Tidy() && fresh(x) && fresh(x.owned)
      invariant x.packetLen == codecSize || (x.packetLen == -1 && i == 0)
      invariant x.codecSize == codecSize && x.hasBackend == hasBackend && x.accepts == accepts
      invariant Run(codecSize, chunks[..i]) == Cut(x.sent, x.Pending())
    {
      assert chunks[..i + 1][..i] == chunks[..i];
      ghost var done, lost;
      ok, done, lost := x.Proc(chunks[i]);
      if !ok {
        return;
      }
    }
    assert chunks[..|chunks|] == chunks;
  }

  /** From a new encoder to its close: what the codec got is all the input exactly when every
      chunk was a whole number of packets. */
  method EncodeAndClose(codecSize: int, hasBackend: bool, accepts: nat -> bool, chunks: seq<seq<byte>>)
    returns (ok: bool, sent: seq<seq<byte>>)
    requires codecSize > 0
    ensures hasBackend && (forall n: nat :: accepts(n)) ==> ok
    ensures ok ==> sent == Run(codecSize, chunks).packets
    ensures ok ==> (Flatten(sent) == Flatten(chunks)
                    <==> forall i :: 0 <= i < |chunks| ==> |chunks[i]| % codecSize == 0)
  {
    hide Encode, Flatten, Contents, IsChain, AllFreed, Owns;
    var x;
    ok, x := EncodeStream(codecSize, hasBackend, accepts, chunks);
    FlushSendsNothing(codecSize, chunks);
    AllSent(codecSize, chunks);
    x.Close();
    sent := x.sent;
  }
}
