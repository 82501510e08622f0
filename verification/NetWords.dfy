/** Big-endian 16- and 32-bit fields in byte sequences, written in place. */
module NetWords {
  import opened CInt
  import opened Digits

  function Be16(v: int): (b: seq<byte>)
    ensures |b| == 2
  {
    var u := v % 0x1_0000;
    [u / 0x100, u % 0x100]
  }

  function Be32(v: uint32): (b: seq<byte>)
    ensures |b| == 4
  {
    Be16(v / 0x1_0000) + Be16(v % 0x1_0000)
  }

  function Half(b: seq<byte>, i: nat): (v: int)
    requires i + 2 <= |b|
    ensures 0 <= v < 0x1_0000
  {
    (b[i] as int) * 0x100 + (b[i + 1] as int)
  }

  function Word(b: seq<byte>, i: nat): uint32
    requires i + 4 <= |b|
  {
    Half(b, i) * 0x1_0000 + Half(b, i + 2)
  }

  /** The first byte is the most significant. */
  lemma HalfIsBig(b: seq<byte>, i: nat)
    requires i + 2 <= |b|
    ensures Half(b, i) == Big(b[i..i + 2])
  {
    Big2(b[i..i + 2]);
  }

  lemma WordIsBig(b: seq<byte>, i: nat)
    requires i + 4 <= |b|
    ensures Word(b, i) == Big(b[i..i + 4])
  {
    Big4(b[i..i + 4]);
  }

  lemma HalfOfBe16(b: seq<byte>, i: nat, v: int)
    requires i + 2 <= |b| && b[i..i + 2] == Be16(v)
    ensures Half(b, i) == v % 0x1_0000
  {
    assert b[i] == b[i..i + 2][0] && b[i + 1] == b[i..i + 2][1];
  }

  lemma WordOfBe32(b: seq<byte>, i: nat, v: uint32)
    requires i + 4 <= |b| && b[i..i + 4] == Be32(v)
    ensures Word(b, i) == v
  {
    hide Be16, Half;
    var w := b[i..i + 4];
    assert b[i..i + 2] == w[..2] == Be16(v / 0x1_0000) && b[i + 2..i + 4] == w[2..] == Be16(v % 0x1_0000);
    HalfOfBe16(b, i, v / 0x1_0000);
    HalfOfBe16(b, i + 2, v % 0x1_0000);
  }

  lemma SameFields(b: seq<byte>, k: nat, i: nat)
    requires k <= |b|
    ensures i + 4 <= k ==> Word(b[..k], i) == Word(b, i)
    ensures i + 2 <= k ==> Half(b[..k], i) == Half(b, i)
  {
  }

  lemma HalfBack(b: seq<byte>, i: nat, v: int)
    requires i + 2 <= |b| && v % 0x1_0000 == Half(b, i)
    ensures Be16(v) == b[i..i + 2]
  {
  }

  lemma WordBack(b: seq<byte>, i: nat)
    requires i + 4 <= |b|
    ensures Be32(Word(b, i)) == b[i..i + 4]
  {
    hide Be16, Half;
    var w := Word(b, i);
    assert w / 0x1_0000 == Half(b, i) && w % 0x1_0000 == Half(b, i + 2);
    HalfBack(b, i, w / 0x1_0000);
    HalfBack(b, i + 2, w % 0x1_0000);
  }

  method PutHalf(blob: array<byte>, at: nat, v: int)
    requires at + 2 <= blob.Length
    modifies blob
    ensures blob[..at + 2] == old(blob[..at]) + Be16(v)
    ensures forall k :: at + 2 <= k < blob.Length ==> blob[k] == old(blob[k])
  {
    var u := v % 0x1_0000;
    blob[at] := u / 0x100;
    blob[at + 1] := u % 0x100;
  }

  method PutWord(blob: array<byte>, at: nat, v: uint32)
    requires at + 4 <= blob.Length
    modifies blob
    ensures blob[..at + 4] == old(blob[..at]) + Be32(v)
    ensures forall k :: at + 4 <= k < blob.Length ==> blob[k] == old(blob[k])
  {
    hide Be16;
    PutHalf(blob, at, v / 0x1_0000);
    PutHalf(blob, at + 2, v % 0x1_0000);
  }

  method PutBytes(blob: array<byte>, at: nat, v: seq<byte>)
    requires at + |v| <= blob.Length
    modifies blob
    ensures blob[..at + |v|] == old(blob[..at]) + v
    ensures forall k :: at + |v| <= k < blob.Length ==> blob[k] == old(blob[k])
  {
    forall i | 0 <= i < |v| {
      blob[at + i] := v[i];
    }
  }
}
