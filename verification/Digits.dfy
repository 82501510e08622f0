/** Numbers as bytes, least or most significant first. */
module Digits {
  import opened CInt

  function Digit(low: int, high: int): int {
    low + 0x100 * high
  }

  function Little(s: seq<byte>): nat {
    if s == [] then 0 else s[0] + 0x100 * Little(s[1..])
  }

  function Big(s: seq<byte>): nat {
    if s == [] then 0 else 0x100 * Big(s[..|s| - 1]) + s[|s| - 1]
  }

  /** A number has one form of a given length. */
  lemma {:induction false} LittleUnique(s: seq<byte>, t: seq<byte>)
    requires |s| == |t| && Little(s) == Little(t)
    ensures s == t
  {
    if s != [] {
      LittleUnique(s[1..], t[1..]);
      assert s == [s[0]] + s[1..] && t == [t[0]] + t[1..];
    }
  }

  lemma Nothing()
    ensures Little([]) == 0 && Big([]) == 0
  {
  }

  lemma Little8(s: seq<byte>)
    requires |s| == 8
    ensures Little(s) == Digit(s[0], Digit(s[1], Digit(s[2], Digit(s[3], Digit(s[4], Digit(s[5], Digit(s[6], s[7])))))))
  {
    hide Little;
    Nothing();
    LittleStep(s, 0);
    LittleStep(s, 1);
    LittleStep(s, 2);
    LittleStep(s, 3);
    LittleStep(s, 4);
    LittleStep(s, 5);
    LittleStep(s, 6);
    LittleStep(s, 7);
    assert s[0..] == s && s[8..] == [];
  }

  lemma LittleStep(s: seq<byte>, k: nat)
    requires k < |s|
    ensures Little(s[k..]) == s[k] + 0x100 * Little(s[k + 1..])
  {
    assert s[k..][1..] == s[k + 1..];
  }

  lemma Big2(s: seq<byte>)
    requires |s| == 2
    ensures Big(s) == Digit(s[1], s[0])
  {
    hide Big;
    Nothing();
    BigStep(s, 0);
    BigStep(s, 1);
    assert s[..2] == s && s[..0] == [];
  }

  lemma Big4(s: seq<byte>)
    requires |s| == 4
    ensures Big(s) == Digit(s[3], Digit(s[2], Digit(s[1], s[0])))
  {
    hide Big;
    Nothing();
    BigStep(s, 0);
    BigStep(s, 1);
    BigStep(s, 2);
    BigStep(s, 3);
    assert s[..4] == s && s[..0] == [];
  }

  lemma Big8(s: seq<byte>)
    requires |s| == 8
    ensures Big(s) == Digit(s[7], Digit(s[6], Digit(s[5], Digit(s[4], Digit(s[3], Digit(s[2], Digit(s[1], s[0])))))))
  {
    hide Big;
    Nothing();
    BigStep(s, 0);
    BigStep(s, 1);
    BigStep(s, 2);
    BigStep(s, 3);
    BigStep(s, 4);
    BigStep(s, 5);
    BigStep(s, 6);
    BigStep(s, 7);
    assert s[..8] == s && s[..0] == [];
  }

  lemma BigStep(s: seq<byte>, k: nat)
    requires k < |s|
    ensures Big(s[..k + 1]) == 0x100 * Big(s[..k]) + s[k]
  {
    assert s[..k + 1][..k] == s[..k];
  }
}
