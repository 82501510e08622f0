/** struct roar_hash_tiger and its operations, updated in place as the source does.
    NULL arguments are not modelled; every other error return is. */
module TigerHash {
  import opened CInt
  import opened Word64
  import opened TigerCipher
  import opened Digits
  import opened TigerStream
  import opened Util

  /** The block function of a given table. */
  function Cipher(sb: SBoxes): BlockFunction {
    (r: Regs, block: seq<byte>) => if |block| == 64 then Compress(sb, r, block) else r
  }

  class Tiger {
    const sb: SBoxes
    const inbuf: array<byte>
    var a: word
    var b: word
    var c: word
    var inlen: nat
    var blocks: word
    var isFinal: bool

    ghost predicate Valid()
      reads this, inbuf
    {
      inbuf.Length == 64 && inlen < 64
    }

    ghost function State(): Stream
      requires Valid()
      reads this, inbuf
    {
      Stream(Triple(a, b, c), inbuf[..inlen], blocks, isFinal)
    }

    ghost function F(): BlockFunction {
      Cipher(sb)
    }

    constructor Init(sb: SBoxes)
      ensures Valid() && fresh(inbuf) && this.sb == sb
      ensures State() == TigerStream.Init()
    {
      this.sb := sb;
      inbuf := new byte[64](i => 0);
      a, b, c := 0x0123_4567_89AB_CDEF, 0xFEDC_BA98_7654_3210, 0xF096_A5B4_C3B2_E187;
      inlen, blocks, isFinal := 0, 0, false;
    }

    /** roar_hash_tiger_init_from_pstate */
    constructor InitFromPstate(sb: SBoxes, oldstate: seq<byte>)
      requires |oldstate| == 32
      ensures Valid() && fresh(inbuf) && this.sb == sb
      ensures State() == FromPstate(oldstate)
    {
      this.sb := sb;
      inbuf := new byte[64](i => 0);
      a, b, c := BeWord(oldstate[0..8]), BeWord(oldstate[8..16]), BeWord(oldstate[16..24]);
      inlen, blocks, isFinal := 0, BeWord(oldstate[24..32]), false;
    }

    method ProcBlock(block: seq<byte>)
      requires |block| == 64
      modifies this`a, this`b, this`c, this`blocks
      ensures Triple(a, b, c) == F()(old(Triple(a, b, c)), block)
      ensures blocks == (old(blocks) + 1) % MODULUS
    {
      hide Compress;
      var na, nb, nc := CompressBlock(sb, a, b, c, block);
      a, b, c := na, nb, nc;
      blocks := (blocks + 1) % MODULUS;
    }

    /** memcpy(inbuf + at, data, |data|) */
    method CopyIn(at: nat, data: seq<byte>)
      requires inbuf.Length == 64 && at + |data| <= 64
      modifies inbuf
      ensures inbuf[..at + |data|] == old(inbuf[..at]) + data
    {
      forall i | 0 <= i < |data| {
        inbuf[at + i] := data[i];
      }
    }

    /** Completes the unfinished block from the front of the data. */
    method TopUp(data: seq<byte>) returns (off: nat)
      requires Valid() && inlen != 0 && inlen + |data| >= 64
      modifies this`a, this`b, this`c, this`blocks, this`inlen, inbuf
      ensures Valid() && inlen == 0 && off <= |data|
      ensures State() == Feed(F(), old(State()), data[..off])
    {
      hide Cipher, Fold, Feed;
      ghost var s := State();
      off := BLOCK_LEN - inlen;
      CopyIn(inlen, data[..off]);
      inlen := 0;
      assert inbuf[..] == inbuf[..64];
      ProcBlock(inbuf[..]);
      FeedFills(F(), s, data[..off]);
    }

    /** The loop over the whole blocks; s is the state before the data. */
    method WholeBlocks(data: seq<byte>, at: nat, ghost s: Stream) returns (off: nat)
      requires Valid() && inlen == 0 && at <= |data| && State() == Feed(F(), s, data[..at])
      modifies this`a, this`b, this`c, this`blocks
      ensures Valid() && inlen == 0 && off <= |data| < off + 64 && State() == Feed(F(), s, data[..off])
    {
      hide Cipher, Fold, Feed;
      off := at;
      while |data| - off >= BLOCK_LEN
        invariant off <= |data| && Valid() && inlen == 0
        invariant State() == Feed(F(), s, data[..off])
      {
        ghost var t := State();
        ProcBlock(data[off..off + 64]);
        FeedBlock(F(), t, data[off..off + 64]);
        FeedConcat(F(), s, data[..off], data[off..off + 64]);
        assert data[..off] + data[off..off + 64] == data[..off + 64];
        off := off + BLOCK_LEN;
      }
    }

    method Proc(data: seq<byte>)
      requires Valid()
      modifies this`a, this`b, this`c, this`blocks, this`inlen, inbuf
      ensures Valid()
      ensures State() == Feed(F(), old(State()), data)
    {
      hide Cipher, Fold, Feed;
      ghost var s := State();
      if |data| == 0 {
        FeedNothing(F(), s);
        return;
      }
      var off := 0;
      if inlen != 0 {
        if |data| < BLOCK_LEN - inlen {
          CopyIn(inlen, data);
          inlen := inlen + |data|;
          FeedShort(F(), s, data);
          return;
        }
        off := TopUp(data);
      } else {
        assert data[..0] == [];
        FeedNothing(F(), s);
      }
      off := WholeBlocks(data, off, s);
      FeedConcat(F(), s, data[..off], data[off..]);
      assert data[..off] + data[off..] == data;
      FeedShort(F(), State(), data[off..]);
      if off < |data| {
        CopyIn(0, data[off..]);
        inlen := |data| - off;
      }
    }

    method FinalizeState()
      requires Valid()
      modifies this`a, this`b, this`c, this`blocks, this`inlen, this`isFinal, inbuf
      ensures Valid()
      ensures State() == Finalize(F(), old(State()))
    {
      hide Cipher, Fold, Finalize, LeBytes, Octet, Zeros;
      ghost var s := State();
      FinalizeParts(F(), s, BitLength(blocks, inlen));
      if isFinal {
        return;
      }
      var len := (((blocks * BLOCK_LEN + inlen) % MODULUS) * 8) % MODULUS;
      inbuf[inlen] := 0x01;
      inlen := inlen + 1;
      assert inbuf[..inlen] == s.pending + [1];
      LastBlocks(len);
      inlen := 0;
      isFinal := true;
      assert inbuf[..inlen] == [];
    }

    /** The one or two blocks that end the message, the pad character being in place. */
    method LastBlocks(len: word)
      requires inbuf.Length == 64 && inlen <= 64
      modifies this`a, this`b, this`c, this`blocks, this`inlen, inbuf
      ensures var p, r := old(inbuf[..inlen]), old(Triple(a, b, c));
              if |p| <= 56 then
                && Triple(a, b, c) == F()(r, p + Zeros(56 - |p|) + LeBytes(len))
                && blocks == (old(blocks) + 1) % MODULUS
              else
                && Triple(a, b, c) == F()(F()(r, p + Zeros(64 - |p|)), Zeros(56) + LeBytes(len))
                && blocks == ((old(blocks) + 1) % MODULUS + 1) % MODULUS
    {
      hide Cipher, LeBytes, Octet, Zeros;
      if inlen <= 56 {
        Pad(56);
      } else {
        ExtraBlock();
      }
      PutLength(len);
      ProcBlock(inbuf[..]);
    }

    /** No room for the length: run the padded block and start one of zeros. */
    method ExtraBlock()
      requires inbuf.Length == 64 && inlen <= 64
      modifies this`a, this`b, this`c, this`blocks, this`inlen, inbuf
      ensures Triple(a, b, c) == F()(old(Triple(a, b, c)), old(inbuf[..inlen]) + Zeros(64 - old(inlen)))
      ensures blocks == (old(blocks) + 1) % MODULUS
      ensures inlen == 64 && inbuf[..56] == Zeros(56)
    {
      hide Cipher, Zeros;
      Pad(64);
      assert inbuf[..] == inbuf[..64];
      ProcBlock(inbuf[..]);
      ZeroFront();
    }

    method Pad(upTo: nat)
      requires inbuf.Length == 64 && inlen <= upTo <= 64
      modifies this`inlen, inbuf
      ensures inlen == upTo
      ensures inbuf[..upTo] == old(inbuf[..inlen]) + Zeros(upTo - old(inlen))
    {
      while inlen < upTo
        invariant old(inlen) <= inlen <= upTo
        invariant inbuf[..inlen] == old(inbuf[..inlen]) + Zeros(inlen - old(inlen))
      {
        inbuf[inlen] := 0;
        inlen := inlen + 1;
      }
    }

    /** memset(inbuf, 0, 56) */
    method ZeroFront()
      requires inbuf.Length == 64
      modifies inbuf
      ensures inbuf[..56] == Zeros(56)
    {
      forall i | 0 <= i < 56 {
        inbuf[i] := 0;
      }
    }

    /** The eight assignments that end the last block. */
    method PutLength(len: word)
      requires inbuf.Length == 64
      modifies inbuf
      ensures inbuf[..] == old(inbuf[..56]) + LeBytes(len)
    {
      hide Octet;
      inbuf[56], inbuf[57], inbuf[58], inbuf[59] := Octet(len, 0), Octet(len, 1), Octet(len, 2), Octet(len, 3);
      inbuf[60], inbuf[61], inbuf[62], inbuf[63] := Octet(len, 4), Octet(len, 5), Octet(len, 6), Octet(len, 7);
      assert inbuf[..56] == old(inbuf[..56]);
      assert inbuf[..] == inbuf[..56] + inbuf[56..];
    }

    /** _export: nothing while bytes are pending or when the room is too small. */
    method Export(room: nat, isPstate: bool) returns (out: Option<seq<byte>>)
      requires Valid()
      ensures out == if inlen != 0 || room < (if isPstate then 32 else 24) then None
                     else if isPstate then ToPstate(State())
                     else Some(Words(Triple(a, b, c)))
    {
      var needlen := if isPstate then 32 else 24;
      if inlen != 0 || room < needlen {
        return None;
      }
      var p := BeBytes(a);
      p := p + BeBytes(b);
      p := p + BeBytes(c);
      if isPstate {
        p := p + BeBytes(blocks);
      }
      return Some(p);
    }

    method GetDigest(room: nat) returns (out: Option<seq<byte>>)
      requires Valid()
      modifies this`a, this`b, this`c, this`blocks, this`inlen, this`isFinal, inbuf
      ensures Valid()
      ensures State() == Finalize(F(), old(State()))
      ensures out == if room < 24 then None else Digest(F(), old(State()))
    {
      hide Cipher;
      FinalizeState();
      out := Export(room, false);
    }
  }

  /** A chunk that does not complete the block only extends the pending bytes. */
  lemma FeedShort(f: BlockFunction, s: Stream, data: seq<byte>)
    requires |s.pending| + |data| < 64
    ensures Feed(f, s, data) == s.(pending := s.pending + data)
  {
  }

  /** A chunk that completes the block exactly runs the block function once. */
  lemma FeedFills(f: BlockFunction, s: Stream, data: seq<byte>)
    requires |s.pending| + |data| == 64
    ensures Feed(f, s, data) == Stream(f(s.words, s.pending + data), [], (s.blocks + 1) % MODULUS, s.isFinal)
  {
    var all := s.pending + data;
    assert all[..64] == all && all[64..] == [];
    FoldOne(f, s.words, all);
  }

  lemma FoldOne(f: BlockFunction, r: Regs, block: seq<byte>)
    requires |block| == 64
    ensures Fold(f, r, block) == f(r, block)
  {
    assert block[..64] == block && block[64..] == [];
    assert Fold(f, f(r, block), []) == f(r, block);
  }

  lemma FeedBlock(f: BlockFunction, s: Stream, block: seq<byte>)
    requires s.pending == [] && |block| == 64
    ensures Feed(f, s, block) == Stream(f(s.words, block), [], (s.blocks + 1) % MODULUS, s.isFinal)
  {
    FeedFills(f, s, block);
    assert s.pending + block == block;
  }

  /** The one or two blocks that finalising runs, cut as the code cuts them. */
  lemma FinalizeParts(f: BlockFunction, s: Stream, len: word)
    requires |s.pending| < 64 && len == BitLength(s.blocks, |s.pending|)
    ensures var p := s.pending + [1];
            Finalize(f, s) ==
              if s.isFinal then s
              else if |p| <= 56 then
                Stream(f(s.words, p + Zeros(56 - |p|) + LeBytes(len)), [], (s.blocks + 1) % MODULUS, true)
              else
                Stream(f(f(s.words, p + Zeros(64 - |p|)), Zeros(56) + LeBytes(len)), [],
                       ((s.blocks + 1) % MODULUS + 1) % MODULUS, true)
  {
    hide BitLength, LeBytes;
    if s.isFinal {
      return;
    }
    var p := s.pending + [1];
    var tail := Tail(|s.pending|, len);
    var all := s.pending + tail;
    if |p| <= 56 {
      assert all == p + Zeros(56 - |p|) + LeBytes(len);
      FoldOne(f, s.words, all);
    } else {
      var x, y := p + Zeros(64 - |p|), Zeros(56) + LeBytes(len);
      assert all == x + y;
      FoldAppend(f, s.words, x, y);
      FoldOne(f, s.words, x);
      FoldOne(f, f(s.words, x), y);
      ModAddTwice(s.blocks, 1, 1);
    }
  }

  lemma ByBytes(f: BlockFunction, m: seq<byte>)
    ensures |OneShot(f, m)| == 24
    ensures forall p: seq<byte>, i :: IsPadded(m, p) && 0 <= i < 3 ==>
              var start := Triple(0x0123_4567_89AB_CDEF, 0xFEDC_BA98_7654_3210, 0xF096_A5B4_C3B2_E187);
              Big(OneShot(f, m)[8 * i..8 * i + 8]) == Fold(f, start, p)[i]
  {
    hide Fold, Words;
    forall p: seq<byte>, i | IsPadded(m, p) && 0 <= i < 3
      ensures var start := Triple(0x0123_4567_89AB_CDEF, 0xFEDC_BA98_7654_3210, 0xF096_A5B4_C3B2_E187);
              Big(OneShot(f, m)[8 * i..8 * i + 8]) == Fold(f, start, p)[i]
    {
      OneShotByBytes(f, m, p);
    }
  }

  /** Driving the object over any chunks gives the one-shot hash of the whole message;
      asking a second time gives the same bytes. */
  method HashChunks(sb: SBoxes, chunks: seq<seq<byte>>) returns (digest: Option<seq<byte>>, again: Option<seq<byte>>)
    ensures digest == Some(OneShot(Cipher(sb), Flatten(chunks)))
    ensures digest.Some? && |digest.value| == 24
    ensures forall p: seq<byte>, i :: IsPadded(Flatten(chunks), p) && 0 <= i < 3 ==>
              var start := Triple(0x0123_4567_89AB_CDEF, 0xFEDC_BA98_7654_3210, 0xF096_A5B4_C3B2_E187);
              Big(digest.value[8 * i..8 * i + 8]) == Fold(Cipher(sb), start, p)[i]
    ensures again == digest
  {
    hide Cipher, OneShot, Finalize, IsPadded, Fold;
    ByBytes(Cipher(sb), Flatten(chunks));
    var t := new Tiger.Init(sb);
    ghost var f := Cipher(sb);
    for i := 0 to |chunks|
      invariant t.Valid() && fresh(t) && fresh(t.inbuf) && t.sb == sb
      invariant FeedAll(f, t.State(), chunks[i..]) == FeedAll(f, TigerStream.Init(), chunks)
    {
      t.Proc(chunks[i]);
      assert chunks[i..][1..] == chunks[i + 1..];
    }
    ghost var s := t.State();
    assert s == FeedAll(f, TigerStream.Init(), chunks);
    ChunkedIsOneShot(f, chunks);
    digest := t.GetDigest(24);
    FinalizeOnce(f, s);
    again := t.GetDigest(24);
  }
}
