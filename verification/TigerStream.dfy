/** What the incremental Tiger hash computes: a stream state absorbing chunks, its
    finalisation, its saved form, and the laws that make it equal to hashing the
    whole message at once. The block function f is arbitrary throughout. */
module TigerStream {
  import opened CInt
  import opened Digits
  import opened Word64
  import opened TigerCipher
  import opened Util

  type BlockFunction = (Regs, seq<byte>) -> Regs

  const BLOCK_LEN := 64

  /** A message prefix as the hash remembers it: chaining words, the bytes of the
      unfinished block, the wrapping block counter and the is_final flag. */
  datatype Stream = Stream(words: Regs, pending: seq<byte>, blocks: word, isFinal: bool)

  function Init(): Stream {
    Stream([0x0123_4567_89AB_CDEF, 0xFEDC_BA98_7654_3210, 0xF096_A5B4_C3B2_E187], [], 0, false)
  }

  function Fold(f: BlockFunction, r: Regs, data: seq<byte>): Regs
    requires |data| % 64 == 0
    decreases |data|
  {
    if data == [] then r else Fold(f, f(r, data[..64]), data[64..])
  }

  function Whole(n: nat): (k: nat)
    ensures k <= n < k + 64 && k % 64 == 0
  {
    n - n % 64
  }

  function Feed(f: BlockFunction, s: Stream, data: seq<byte>): (t: Stream)
    ensures |t.pending| < 64
  {
    var all := s.pending + data;
    var k := Whole(|all|);
    Stream(Fold(f, s.words, all[..k]), all[k..], (s.blocks + k / 64) % MODULUS, s.isFinal)
  }

  function FeedAll(f: BlockFunction, s: Stream, chunks: seq<seq<byte>>): Stream
    decreases |chunks|
  {
    if chunks == [] then s else FeedAll(f, Feed(f, s, chunks[0]), chunks[1..])
  }

  // ---------- padding and digest ----------

  function Zeros(n: nat): (z: seq<byte>)
    ensures |z| == n
  {
    seq(n, i => 0)
  }

  /** The message tail: 0x01, zeros up to 56 modulo 64, the bit length in little-endian order. */
  function Tail(n: nat, bits: word): (t: seq<byte>)
    ensures (n + |t|) % 64 == 0
  {
    [1] + Zeros((55 - n) % 64) + LeBytes(bits)
  }

  function LeBytes(w: word): (s: seq<byte>)
    ensures |s| == 8
  {
    [Octet(w, 0), Octet(w, 1), Octet(w, 2), Octet(w, 3), Octet(w, 4), Octet(w, 5), Octet(w, 6), Octet(w, 7)]
  }

  function BeBytes(w: word): (s: seq<byte>)
    ensures |s| == 8
  {
    [Octet(w, 7), Octet(w, 6), Octet(w, 5), Octet(w, 4), Octet(w, 3), Octet(w, 2), Octet(w, 1), Octet(w, 0)]
  }

  /** The bit length the code derives from its counters, wrapping as size_t does. */
  function BitLength(blocks: word, inlen: nat): word {
    (((blocks * 64 + inlen) % MODULUS) * 8) % MODULUS
  }

  function Finalize(f: BlockFunction, s: Stream): Stream {
    if s.isFinal then s
    else
      var tail := Tail(|s.pending|, BitLength(s.blocks, |s.pending|));
      Stream(Fold(f, s.words, s.pending + tail), [], (s.blocks + (|s.pending| + |tail|) / 64) % MODULUS, true)
  }

  function Words(r: Regs): (d: seq<byte>)
    ensures |d| == 24
  {
    BeBytes(r[0]) + BeBytes(r[1]) + BeBytes(r[2])
  }

  /** The reference definition: pad the whole message, fold the block function over it. */
  function OneShot(f: BlockFunction, m: seq<byte>): seq<byte> {
    Words(Fold(f, Init().words, m + Tail(|m|, (8 * |m|) % MODULUS)))
  }

  function Digest(f: BlockFunction, s: Stream): Option<seq<byte>> {
    var t := Finalize(f, s);
    if t.pending != [] then None else Some(Words(t.words))
  }

  // ---------- saved state ----------

  function ToPstate(s: Stream): Option<seq<byte>> {
    if s.pending != [] then None else Some(Words(s.words) + BeBytes(s.blocks))
  }

  function BeWord(p: seq<byte>): word
    requires |p| == 8
  {
    LeWord([p[7], p[6], p[5], p[4], p[3], p[2], p[1], p[0]], 0)
  }

  function FromPstate(p: seq<byte>): Stream
    requires |p| == 32
  {
    Stream([BeWord(p[0..8]), BeWord(p[8..16]), BeWord(p[16..24])], [], BeWord(p[24..32]), false)
  }

  // ---------- laws ----------

  lemma {:induction false} FoldAppend(f: BlockFunction, r: Regs, x: seq<byte>, y: seq<byte>)
    requires |x| % 64 == 0 && |y| % 64 == 0
    ensures Fold(f, r, x + y) == Fold(f, Fold(f, r, x), y)
    decreases |x|
  {
    if x == [] {
      assert x + y == y;
    } else {
      assert (x + y)[..64] == x[..64] && (x + y)[64..] == x[64..] + y;
      FoldAppend(f, f(r, x[..64]), x[64..], y);
    }
  }

  lemma WholeSum(m: nat, n: nat)
    ensures Whole(m + n) == Whole(m) + Whole(m - Whole(m) + n)
  {
    var q := m / 64;
    assert m == 64 * q + m % 64;
    assert m + n == 64 * q + (m % 64 + n);
  }

  lemma ModAddTwice(b: word, i: nat, j: nat)
    ensures ((b + i) % MODULUS + j) % MODULUS == (b + i + j) % MODULUS
  {
    var q := (b + i) / MODULUS;
    assert (b + i) % MODULUS + j == (b + i + j) - q * MODULUS;
    ModShift(b + i + j, q);
  }

  lemma SplitAt(ax: seq<byte>, y: seq<byte>, k: nat, l: nat)
    requires k <= |ax| && l <= |ax| - k + |y|
    ensures (ax + y)[..k + l] == ax[..k] + (ax[k..] + y)[..l]
    ensures (ax + y)[k + l..] == (ax[k..] + y)[l..]
  {
    assert ax + y == ax[..k] + (ax[k..] + y);
  }

  /** Feeding two chunks is feeding their concatenation. */
  lemma FeedConcat(f: BlockFunction, s: Stream, x: seq<byte>, y: seq<byte>)
    ensures Feed(f, Feed(f, s, x), y) == Feed(f, s, x + y)
  {
    hide Fold, Whole;
    var ax := s.pending + x;
    var k := Whole(|ax|);
    var ay := ax[k..] + y;
    var l := Whole(|ay|);
    assert s.pending + (x + y) == ax + y;
    WholeSum(|ax|, |y|);
    SplitAt(ax, y, k, l);
    FoldAppend(f, s.words, ax[..k], ay[..l]);
    ModAddTwice(s.blocks, k / 64, l / 64);
    assert (k + l) / 64 == k / 64 + l / 64;
  }

  lemma FeedNothing(f: BlockFunction, s: Stream)
    requires |s.pending| < 64
    ensures Feed(f, s, []) == s
  {
    assert s.pending + [] == s.pending;
  }

  /** Any chunking of a message leaves the state that the whole message leaves. */
  lemma {:induction false} FeedAllIsFeed(f: BlockFunction, s: Stream, chunks: seq<seq<byte>>)
    requires |s.pending| < 64
    ensures FeedAll(f, s, chunks) == Feed(f, s, Flatten(chunks))
    decreases |chunks|
  {
    if chunks == [] {
      FeedNothing(f, s);
    } else {
      FeedAllIsFeed(f, Feed(f, s, chunks[0]), chunks[1..]);
      FeedConcat(f, s, chunks[0], Flatten(chunks[1..]));
    }
  }

  lemma FeedFromInit(f: BlockFunction, m: seq<byte>)
    ensures Feed(f, Init(), m)
            == Stream(Fold(f, Init().words, m[..Whole(|m|)]), m[Whole(|m|)..], (|m| / 64) % MODULUS, false)
  {
    hide Fold;
    assert Init().pending + m == m;
    assert Whole(|m|) / 64 == |m| / 64;
  }

  /** Every state reached before finalising holds exactly the bytes fed: fewer than 64
      are pending, and 64 * blocks + inlen is their number (the counter modulo 2^64). */
  lemma ReachableState(f: BlockFunction, chunks: seq<seq<byte>>)
    ensures var s, m := FeedAll(f, Init(), chunks), Flatten(chunks);
            && |s.pending| == |m| % 64
            && s.pending == m[Whole(|m|)..]
            && s.words == Fold(f, Init().words, m[..Whole(|m|)])
            && s.blocks == (|m| / 64) % MODULUS
            && !s.isFinal
  {
    FeedAllIsFeed(f, Init(), chunks);
    FeedFromInit(f, Flatten(chunks));
  }

  lemma BitLengthIsWrapped(n: nat)
    ensures BitLength((n / 64) % MODULUS, n % 64) == (8 * n) % MODULUS
  {
    var q, r := n / 64, n % 64;
    var d := q / MODULUS;
    assert (q % MODULUS) * 64 + r == n - d * 64 * MODULUS;
    var b := (q % MODULUS) * 64 + r;
    var e := b / MODULUS;
    assert (b % MODULUS) * 8 == 8 * n - (d * 512 + e * 8) * MODULUS;
    ModShift(8 * n, d * 512 + e * 8);
  }

  lemma ModShift(x: int, q: int)
    ensures (x - q * MODULUS) % MODULUS == x % MODULUS
  {
    var y := x - q * MODULUS;
    var k := x / MODULUS;
    assert y == (x % MODULUS) + (k - q) * MODULUS;
    ModUnique(y, k - q, x % MODULUS);
  }

  /** The tail depends on the length only modulo the block size. */
  lemma TailPeriod(k: nat, n: nat, bits: word)
    requires k % 64 == 0
    ensures Tail(k + n, bits) == Tail(n, bits)
  {
    hide LeBytes;
    assert (55 - (k + n)) % 64 == (55 - n) % 64;
  }

  /** Finalising the state reached on m folds the blocks of m and its tail. */
  lemma FinalizeReached(f: BlockFunction, s: Stream, m: seq<byte>, k: nat)
    requires k <= |m| && k % 64 == 0 && !s.isFinal
    requires s.pending == m[k..] && s.words == Fold(f, Init().words, m[..k])
    requires BitLength(s.blocks, |s.pending|) == (8 * |m|) % MODULUS
    ensures Digest(f, s) == Some(OneShot(f, m))
  {
    hide Fold, BitLength, Tail;
    var tail := Tail(|m|, (8 * |m|) % MODULUS);
    TailPeriod(k, |s.pending|, (8 * |m|) % MODULUS);
    assert m + tail == m[..k] + (s.pending + tail);
    FoldAppend(f, Init().words, m[..k], s.pending + tail);
  }

  /** The incremental hash equals the one-shot hash for every message and every chunking. */
  lemma ChunkedIsOneShot(f: BlockFunction, chunks: seq<seq<byte>>)
    ensures Digest(f, FeedAll(f, Init(), chunks)) == Some(OneShot(f, Flatten(chunks)))
  {
    hide Fold, FeedAll, Flatten, BitLength, Digest, OneShot;
    var s, m := FeedAll(f, Init(), chunks), Flatten(chunks);
    ReachableState(f, chunks);
    BitLengthIsWrapped(|m|);
    FinalizeReached(f, s, m, Whole(|m|));
  }

  /** Asking for the digest again changes nothing. */
  lemma FinalizeOnce(f: BlockFunction, s: Stream)
    ensures Finalize(f, Finalize(f, s)) == Finalize(f, s)
    ensures Digest(f, Finalize(f, s)) == Digest(f, s)
  {
  }

  lemma OctetSplit(w: word, k: nat)
    requires k < 7
    ensures Down(w, k) == Octet(w, k) + 256 * Down(w, k + 1)
  {
  }

  lemma OctetSum(w: word)
    ensures w == Octet(w, 0) + 256 * (Octet(w, 1) + 256 * (Octet(w, 2) + 256 * (Octet(w, 3)
                 + 256 * (Octet(w, 4) + 256 * (Octet(w, 5) + 256 * (Octet(w, 6) + 256 * Octet(w, 7)))))))
  {
    assert Down(w, 0) == w;
    assert Down(w, 7) == Octet(w, 7);
    hide Octet, Down;
    OctetSplit(w, 0);
    OctetSplit(w, 1);
    OctetSplit(w, 2);
    OctetSplit(w, 3);
    OctetSplit(w, 4);
    OctetSplit(w, 5);
    OctetSplit(w, 6);
  }

  /** The byte forms of a word, by significance. */
  lemma WordBytes(w: word)
    ensures Little(LeBytes(w)) == w && Big(BeBytes(w)) == w
  {
    hide Octet;
    OctetSum(w);
    Little8(LeBytes(w));
    Big8(BeBytes(w));
  }

  // ---------- the hash by its bytes ----------

  /** p is message m padded: a byte 1, zeros, and in the last eight bytes, least significant
      first, the number of bits modulo 2^64, in as few blocks of 64 bytes as that takes. */
  ghost predicate IsPadded(m: seq<byte>, p: seq<byte>) {
    && |p| % 64 == 0 && |m| + 9 <= |p| < |m| + 73
    && p[..|m|] == m && p[|m|] == 1
    && (forall i :: |m| < i < |p| - 8 ==> p[i] == 0)
    && Little(p[|p| - 8..]) == (8 * |m|) % 0x1_0000_0000_0000_0000
  }

  /** The tail makes the one padded message there is. */
  lemma PaddedIsTail(m: seq<byte>, p: seq<byte>)
    ensures IsPadded(m, p) <==> p == m + Tail(|m|, (8 * |m|) % MODULUS)
  {
    hide LeBytes;
    var bits := (8 * |m|) % MODULUS;
    var q := m + Tail(|m|, bits);
    WordBytes(bits);
    var z := (55 - |m|) % 64;
    assert |q| == |m| + 9 + z;
    assert q[|q| - 8..] == LeBytes(bits);
    assert q[..|m|] == m;
    if IsPadded(m, p) {
      SameLength(|m|, |p|, |q|);
      LittleUnique(p[|p| - 8..], LeBytes(bits));
      assert p == p[..|m|] + [p[|m|]] + p[|m| + 1..|p| - 8] + p[|p| - 8..];
      assert p[|m| + 1..|p| - 8] == Zeros(z);
    }
  }

  lemma SameLength(n: nat, k: nat, l: nat)
    requires k % 64 == 0 && l % 64 == 0 && n + 9 <= k < n + 73 && n + 9 <= l < n + 73
    ensures k == l
  {
  }

  /** The hash of a message: the block function folded over the padded message from Tiger's three
      constants, the words written most significant byte first. */
  lemma OneShotByBytes(f: BlockFunction, m: seq<byte>, p: seq<byte>)
    requires IsPadded(m, p)
    ensures var d, start := OneShot(f, m), Triple(0x0123_4567_89AB_CDEF, 0xFEDC_BA98_7654_3210, 0xF096_A5B4_C3B2_E187);
            |d| == 24 && forall i :: 0 <= i < 3 ==> Big(d[8 * i..8 * i + 8]) == Fold(f, start, p)[i]
  {
    hide Fold, BeBytes;
    PaddedIsTail(m, p);
    var r := Fold(f, Init().words, p);
    var d := OneShot(f, m);
    assert d == Words(r);
    assert d[0..8] == BeBytes(r[0]) && d[8..16] == BeBytes(r[1]) && d[16..24] == BeBytes(r[2]);
    WordBytes(r[0]);
    WordBytes(r[1]);
    WordBytes(r[2]);
  }

  /** The blocks are taken in order, 64 bytes each. */
  lemma FoldByBlocks(f: BlockFunction, r: Regs, p: seq<byte>)
    requires |p| % 64 == 0
    ensures Fold(f, r, []) == r
    ensures |p| >= 64 ==> Fold(f, r, p) == f(Fold(f, r, p[..|p| - 64]), p[|p| - 64..])
  {
    if |p| >= 64 {
      var last := p[|p| - 64..];
      assert p == p[..|p| - 64] + last;
      FoldAppend(f, r, p[..|p| - 64], last);
      assert last[..64] == last && last[64..] == [];
    }
  }

  /** A saved state holds the three words and then the number of blocks, most significant byte
      first. */
  lemma PstateByBytes(s: Stream)
    requires s.pending == []
    ensures var p := ToPstate(s);
            p.Some? && |p.value| == 32 && Big(p.value[24..32]) == s.blocks
            && forall i :: 0 <= i < 3 ==> Big(p.value[8 * i..8 * i + 8]) == s.words[i]
  {
    hide BeBytes;
    var p := ToPstate(s).value;
    assert p[0..8] == BeBytes(s.words[0]) && p[8..16] == BeBytes(s.words[1]);
    assert p[16..24] == BeBytes(s.words[2]) && p[24..32] == BeBytes(s.blocks);
    WordBytes(s.words[0]);
    WordBytes(s.words[1]);
    WordBytes(s.words[2]);
    WordBytes(s.blocks);
  }

  /** A word survives its big-endian byte form. */
  lemma BeRoundTrip(w: word)
    ensures BeWord(BeBytes(w)) == w
  {
    hide Octet;
    OctetSum(w);
    var p := BeBytes(w);
    var r := [p[7], p[6], p[5], p[4], p[3], p[2], p[1], p[0]];
    assert r == LeBytes(w);
  }

  /** Saving and reloading an unfinished state loses nothing. */
  lemma PstateRoundTrip(s: Stream)
    requires s.pending == [] && !s.isFinal
    ensures ToPstate(s).Some? && |ToPstate(s).value| == 32
    ensures FromPstate(ToPstate(s).value) == s
  {
    var p := ToPstate(s).value;
    assert p[0..8] == BeBytes(s.words[0]) && p[8..16] == BeBytes(s.words[1]);
    assert p[16..24] == BeBytes(s.words[2]) && p[24..32] == BeBytes(s.blocks);
    BeRoundTrip(s.words[0]);
    BeRoundTrip(s.words[1]);
    BeRoundTrip(s.words[2]);
    BeRoundTrip(s.blocks);
    assert FromPstate(p).words == s.words;
  }

  lemma {:induction false} FeedAllAppend(f: BlockFunction, s: Stream, x: seq<seq<byte>>, y: seq<seq<byte>>)
    ensures FeedAll(f, FeedAll(f, s, x), y) == FeedAll(f, s, x + y)
    decreases |x|
  {
    if x == [] {
      assert x + y == y;
    } else {
      assert (x + y)[1..] == x[1..] + y;
      FeedAllAppend(f, Feed(f, s, x[0]), x[1..], y);
    }
  }

  /** A hash can be suspended exactly at the block boundaries, and a hash resumed from
      its saved state gives the digest of the whole message whatever is fed afterwards. */
  lemma ResumeIsOneShot(f: BlockFunction, before: seq<seq<byte>>, after: seq<seq<byte>>)
    ensures var saved := ToPstate(FeedAll(f, Init(), before));
            && (saved.Some? <==> |Flatten(before)| % 64 == 0)
            && (saved.Some? ==> |saved.value| == 32
                                && Digest(f, FeedAll(f, FromPstate(saved.value), after))
                                   == Some(OneShot(f, Flatten(before) + Flatten(after))))
  {
    var s := FeedAll(f, Init(), before);
    ReachableState(f, before);
    if s.pending == [] {
      PstateRoundTrip(s);
      FeedAllAppend(f, Init(), before, after);
      FlattenAppend(before, after);
      ChunkedIsOneShot(f, before + after);
    }
  }
}
