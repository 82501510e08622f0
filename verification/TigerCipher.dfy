/** The inner permutation of the Tiger hash: tiger_round, pass, key_schedule and
    the block function that feeds it forward.

    The four substitution tables are arbitrary functions, so nothing proved here
    depends on their contents. The three registers a, b, c are the cells 0, 1, 2
    of a sequence or array, and the pointer arguments of the source are indices. */
module TigerCipher {
  import opened CInt
  import opened Digits
  import opened Word64

  datatype SBoxes = SBoxes(t1: byte -> word, t2: byte -> word, t3: byte -> word, t4: byte -> word)

  type Regs = r: seq<word> | |r| == 3 witness [0, 0, 0]
  type Key = x: seq<word> | |x| == 8 witness [0, 0, 0, 0, 0, 0, 0, 0]

  function Triple(a: word, b: word, c: word): Regs {
    var r := [a, b, c];
    assert |r| == 3;
    r
  }

  /** The even bytes of c through tables 1 to 4: what a round subtracts from a. */
  function Even(sb: SBoxes, c: word): word {
    Xor(Xor(Xor(sb.t1(Octet(c, 0)), sb.t2(Octet(c, 2))), sb.t3(Octet(c, 4))), sb.t4(Octet(c, 6)))
  }

  /** The odd bytes of c through tables 4 to 1: what a round adds to b. */
  function Odd(sb: SBoxes, c: word): word {
    Xor(Xor(Xor(sb.t4(Octet(c, 1)), sb.t3(Octet(c, 3))), sb.t2(Octet(c, 5))), sb.t1(Octet(c, 7)))
  }

  predicate Distinct3(ia: nat, ib: nat, ic: nat) {
    ia < 3 && ib < 3 && ic < 3 && ia != ib && ib != ic && ia != ic
  }

  // ---------- rounds and passes ----------

  function Round(sb: SBoxes, r: Regs, ia: nat, ib: nat, ic: nat, x: word, mul: word): Regs
    requires Distinct3(ia, ib, ic)
  {
    var c := Xor(r[ic], x);
    r[ic := c][ia := Sub(r[ia], Even(sb, c))][ib := Mul(Add(r[ib], Odd(sb, c)), mul)]
  }

  /** Rounds i to 7 of a pass; every further round rotates the roles by one. */
  function RoundsFrom(sb: SBoxes, r: Regs, ia: nat, ib: nat, ic: nat, x: Key, mul: word, i: nat): Regs
    requires Distinct3(ia, ib, ic) && i <= 8
    decreases 8 - i
  {
    if i == 8 then r
    else RoundsFrom(sb, Round(sb, r, ia, ib, ic, x[i], mul), ib, ic, ia, x, mul, i + 1)
  }

  function Pass(sb: SBoxes, r: Regs, ia: nat, ib: nat, ic: nat, x: Key, mul: word): Regs
    requires Distinct3(ia, ib, ic)
  {
    RoundsFrom(sb, r, ia, ib, ic, x, mul, 0)
  }

  method TigerRound(sb: SBoxes, regs: array<word>, ra: nat, rb: nat, rc: nat, x: word, mul: word)
    requires regs.Length == 3 && Distinct3(ra, rb, rc)
    modifies regs
    ensures regs[..] == Round(sb, old(regs[..]), ra, rb, rc, x, mul)
  {
    var a, b, c := regs[ra], regs[rb], regs[rc];
    c := Xor(c, x);
    a := Sub(a, Xor(Xor(Xor(sb.t1(Octet(c, 0)), sb.t2(Octet(c, 2))), sb.t3(Octet(c, 4))), sb.t4(Octet(c, 6))));
    b := Add(b, Xor(Xor(Xor(sb.t4(Octet(c, 1)), sb.t3(Octet(c, 3))), sb.t2(Octet(c, 5))), sb.t1(Octet(c, 7))));
    b := Mul(b, mul);
    regs[ra] := a;
    regs[rb] := b;
    regs[rc] := c;
  }

  method PassInPlace(sb: SBoxes, regs: array<word>, ra: nat, rb: nat, rc: nat, x: array<word>, mul: word)
    requires regs.Length == 3 && x.Length == 8 && regs != x && Distinct3(ra, rb, rc)
    modifies regs
    ensures regs[..] == Pass(sb, old(regs[..]), ra, rb, rc, x[..], mul)
  {
    ghost var k := x[..];
    ghost var result := Pass(sb, regs[..], ra, rb, rc, k, mul);
    TigerRound(sb, regs, ra, rb, rc, x[0], mul);
    assert RoundsFrom(sb, regs[..], rb, rc, ra, k, mul, 1) == result;
    TigerRound(sb, regs, rb, rc, ra, x[1], mul);
    assert RoundsFrom(sb, regs[..], rc, ra, rb, k, mul, 2) == result;
    TigerRound(sb, regs, rc, ra, rb, x[2], mul);
    assert RoundsFrom(sb, regs[..], ra, rb, rc, k, mul, 3) == result;
    TigerRound(sb, regs, ra, rb, rc, x[3], mul);
    assert RoundsFrom(sb, regs[..], rb, rc, ra, k, mul, 4) == result;
    TigerRound(sb, regs, rb, rc, ra, x[4], mul);
    assert RoundsFrom(sb, regs[..], rc, ra, rb, k, mul, 5) == result;
    TigerRound(sb, regs, rc, ra, rb, x[5], mul);
    assert RoundsFrom(sb, regs[..], ra, rb, rc, k, mul, 6) == result;
    TigerRound(sb, regs, ra, rb, rc, x[6], mul);
    assert RoundsFrom(sb, regs[..], rb, rc, ra, k, mul, 7) == result;
    TigerRound(sb, regs, rb, rc, ra, x[7], mul);
    assert RoundsFrom(sb, regs[..], rc, ra, rb, k, mul, 8) == result;
  }

  function Unround(sb: SBoxes, r: Regs, ia: nat, ib: nat, ic: nat, x: word, mul: word): Regs
    requires Distinct3(ia, ib, ic) && IsMultiplier(mul)
  {
    var c := r[ic];
    r[ic := Xor(c, x)][ia := Add(r[ia], Even(sb, c))][ib := Sub(Mul(r[ib], Inverse(mul)), Odd(sb, c))]
  }

  /** A round is a bijection on the three registers, whatever the tables hold. */
  lemma RoundBijective(sb: SBoxes, r: Regs, ia: nat, ib: nat, ic: nat, x: word, mul: word)
    requires Distinct3(ia, ib, ic) && IsMultiplier(mul)
    ensures Unround(sb, Round(sb, r, ia, ib, ic, x, mul), ia, ib, ic, x, mul) == r
    ensures Round(sb, Unround(sb, r, ia, ib, ic, x, mul), ia, ib, ic, x, mul) == r
  {
    var c := Xor(r[ic], x);
    XorCancel(r[ic], x);
    AddSubCancel(r[ia], Even(sb, c));
    AddSubCancel(r[ib], Odd(sb, c));
    MulCancel(Add(r[ib], Odd(sb, c)), mul);
    AddSubCancel(r[ia], Even(sb, r[ic]));
    AddSubCancel(Mul(r[ib], Inverse(mul)), Odd(sb, r[ic]));
    MulCancel(r[ib], mul);
  }

  /** What a round takes off its first register, and adds to its second before multiplying. */
  function Taken(r: Regs, y: Regs, ia: nat): word
    requires ia < 3
  {
    Sub(r[ia], y[ia])
  }

  function Added(r: Regs, y: Regs, ib: nat, mul: word): word
    requires ib < 3 && IsMultiplier(mul)
  {
    Sub(Mul(y[ib], Inverse(mul)), r[ib])
  }

  /** The third register takes up the message word, and nothing else. */
  lemma RoundMixes(sb: SBoxes, r: Regs, ia: nat, ib: nat, ic: nat, x: word, mul: word)
    requires Distinct3(ia, ib, ic)
    ensures Round(sb, r, ia, ib, ic, x, mul)[ic] == Xor(r[ic], x)
  {
  }

  /** A round looks up table 1 at octets 0 and 7 of the mixed word, table 2 at 2 and 5, table 3
      at 4 and 3, and table 4 at 6 and 1, and nowhere else. */
  lemma RoundLooksUp(sb: SBoxes, other: SBoxes, r: Regs, ia: nat, ib: nat, ic: nat, x: word, mul: word)
    requires Distinct3(ia, ib, ic)
    requires var c := Xor(r[ic], x);
             && sb.t1(Octet(c, 0)) == other.t1(Octet(c, 0)) && sb.t1(Octet(c, 7)) == other.t1(Octet(c, 7))
             && sb.t2(Octet(c, 2)) == other.t2(Octet(c, 2)) && sb.t2(Octet(c, 5)) == other.t2(Octet(c, 5))
             && sb.t3(Octet(c, 4)) == other.t3(Octet(c, 4)) && sb.t3(Octet(c, 3)) == other.t3(Octet(c, 3))
             && sb.t4(Octet(c, 6)) == other.t4(Octet(c, 6)) && sb.t4(Octet(c, 1)) == other.t4(Octet(c, 1))
    ensures Round(sb, r, ia, ib, ic, x, mul) == Round(other, r, ia, ib, ic, x, mul)
  {
    hide Octet;
  }

  /** All octets but number k are those of the other word. */
  predicate DifferAt(c: word, d: word, k: nat) {
    && (k != 0 ==> Octet(c, 0) == Octet(d, 0)) && (k != 1 ==> Octet(c, 1) == Octet(d, 1))
    && (k != 2 ==> Octet(c, 2) == Octet(d, 2)) && (k != 3 ==> Octet(c, 3) == Octet(d, 3))
    && (k != 4 ==> Octet(c, 4) == Octet(d, 4)) && (k != 5 ==> Octet(c, 5) == Octet(d, 5))
    && (k != 6 ==> Octet(c, 6) == Octet(d, 6)) && (k != 7 ==> Octet(c, 7) == Octet(d, 7))
  }

  /** The entry an octet selects: in tables 1 to 4 for the even octets, 4 to 1 for the odd ones. */
  function Entry(sb: SBoxes, c: word, k: nat): word
    requires k < 8
  {
    if k == 0 then sb.t1(Octet(c, 0))
    else if k == 1 then sb.t4(Octet(c, 1))
    else if k == 2 then sb.t2(Octet(c, 2))
    else if k == 3 then sb.t3(Octet(c, 3))
    else if k == 4 then sb.t3(Octet(c, 4))
    else if k == 5 then sb.t2(Octet(c, 5))
    else if k == 6 then sb.t4(Octet(c, 6))
    else sb.t1(Octet(c, 7))
  }

  /** Exchanging one of four in an exclusive or changes it by the exclusive or of the two. */
  lemma XorOfFour(p: word, q: word, s: word, t: word, u: word)
    ensures Xor(Xor(Xor(Xor(p, q), s), t), Xor(Xor(Xor(u, q), s), t)) == Xor(p, u)
    ensures Xor(Xor(Xor(Xor(q, p), s), t), Xor(Xor(Xor(q, u), s), t)) == Xor(p, u)
    ensures Xor(Xor(Xor(Xor(q, s), p), t), Xor(Xor(Xor(q, s), u), t)) == Xor(p, u)
    ensures Xor(Xor(Xor(Xor(q, s), t), p), Xor(Xor(Xor(q, s), t), u)) == Xor(p, u)
  {
    hide Xor;
    XorCommute(p, q);
    XorCommute(u, q);
    XorAside(q, p, u);
    XorBeside(Xor(p, q), Xor(u, q), s);
    XorBeside(Xor(Xor(p, q), s), Xor(Xor(u, q), s), t);
    XorAside(Xor(q, s), p, u);
    XorBeside(Xor(Xor(q, s), p), Xor(Xor(q, s), u), t);
    XorAside(Xor(Xor(q, s), t), p, u);
  }

  lemma XorBeside(u: word, v: word, w: word)
    ensures Xor(Xor(u, w), Xor(v, w)) == Xor(u, v)
  {
    hide Xor;
    XorAssociate(Xor(u, w), v, w);
    XorCommute(v, w);
    XorAssociate(Xor(u, w), w, v);
    XorCancel(u, w);
  }

  lemma XorAside(w: word, u: word, v: word)
    ensures Xor(Xor(w, u), Xor(w, v)) == Xor(u, v)
  {
    hide Xor;
    XorCommute(w, u);
    XorCommute(w, v);
    XorBeside(u, v, w);
  }

  /** If only one octet of the mixed word changes, then for an even octet what is added to the
      second register stays, and what is taken off the first changes by the two entries of the
      octet's table; for an odd one it is the other way round. */
  lemma OneOctet(sb: SBoxes, r: Regs, s: Regs, ia: nat, ib: nat, ic: nat, x: word, mul: word, k: nat)
    requires Distinct3(ia, ib, ic) && IsMultiplier(mul) && k < 8
    requires DifferAt(Xor(r[ic], x), Xor(s[ic], x), k)
    ensures var c, d := Xor(r[ic], x), Xor(s[ic], x);
            var y, z := Round(sb, r, ia, ib, ic, x, mul), Round(sb, s, ia, ib, ic, x, mul);
            var change := Xor(Entry(sb, c, k), Entry(sb, d, k));
            if k % 2 == 0
            then Added(r, y, ib, mul) == Added(s, z, ib, mul) && Xor(Taken(r, y, ia), Taken(s, z, ia)) == change
            else Taken(r, y, ia) == Taken(s, z, ia) && Xor(Added(r, y, ib, mul), Added(s, z, ib, mul)) == change
  {
    hide Octet, Xor, Mul, Inverse, Round, Taken, Added, DifferAt, Even, Odd;
    RoundParts(sb, r, ia, ib, ic, x, mul);
    RoundParts(sb, s, ia, ib, ic, x, mul);
    if k % 2 == 0 {
      EvenDiffer(sb, Xor(r[ic], x), Xor(s[ic], x), k);
    } else {
      OddDiffer(sb, Xor(r[ic], x), Xor(s[ic], x), k);
    }
  }

  lemma EvenDiffer(sb: SBoxes, c: word, d: word, k: nat)
    requires DifferAt(c, d, k) && (k == 0 || k == 2 || k == 4 || k == 6)
    ensures Odd(sb, c) == Odd(sb, d) && Xor(Even(sb, c), Even(sb, d)) == Xor(Entry(sb, c, k), Entry(sb, d, k))
  {
    hide Octet, Xor;
    var t1, t2, t3, t4 := Entry(sb, c, 0), Entry(sb, c, 2), Entry(sb, c, 4), Entry(sb, c, 6);
    if k == 0 {
      XorOfFour(t1, t2, t3, t4, Entry(sb, d, 0));
    } else if k == 2 {
      XorOfFour(t2, t1, t3, t4, Entry(sb, d, 2));
    } else if k == 4 {
      XorOfFour(t3, t1, t2, t4, Entry(sb, d, 4));
    } else {
      XorOfFour(t4, t1, t2, t3, Entry(sb, d, 6));
    }
  }

  lemma OddDiffer(sb: SBoxes, c: word, d: word, k: nat)
    requires DifferAt(c, d, k) && (k == 1 || k == 3 || k == 5 || k == 7)
    ensures Even(sb, c) == Even(sb, d) && Xor(Odd(sb, c), Odd(sb, d)) == Xor(Entry(sb, c, k), Entry(sb, d, k))
  {
    hide Octet, Xor;
    var t4, t3, t2, t1 := Entry(sb, c, 1), Entry(sb, c, 3), Entry(sb, c, 5), Entry(sb, c, 7);
    if k == 1 {
      XorOfFour(t4, t3, t2, t1, Entry(sb, d, 1));
    } else if k == 3 {
      XorOfFour(t3, t4, t2, t1, Entry(sb, d, 3));
    } else if k == 5 {
      XorOfFour(t2, t4, t3, t1, Entry(sb, d, 5));
    } else {
      XorOfFour(t1, t4, t3, t2, Entry(sb, d, 7));
    }
  }

  lemma RoundParts(sb: SBoxes, r: Regs, ia: nat, ib: nat, ic: nat, x: word, mul: word)
    requires Distinct3(ia, ib, ic) && IsMultiplier(mul)
    ensures var y := Round(sb, r, ia, ib, ic, x, mul);
            && Taken(r, y, ia) == Even(sb, Xor(r[ic], x))
            && Added(r, y, ib, mul) == Odd(sb, Xor(r[ic], x))
  {
    hide Even, Odd, Xor, Mul, Inverse;
    var c := Xor(r[ic], x);
    TakenBack(r[ia], Even(sb, c));
    MulCancel(Add(r[ib], Odd(sb, c)), mul);
    AddedBack(r[ib], Odd(sb, c));
  }

  lemma TakenBack(u: word, v: word)
    ensures Sub(u, Sub(u, v)) == v
  {
  }

  lemma AddedBack(u: word, v: word)
    ensures Sub(Add(u, v), u) == v
  {
  }

  /** The same rounds undone, last one first. */
  function UnroundsFrom(sb: SBoxes, r: Regs, ia: nat, ib: nat, ic: nat, x: Key, mul: word, i: nat): Regs
    requires Distinct3(ia, ib, ic) && i <= 8 && IsMultiplier(mul)
    decreases 8 - i
  {
    if i == 8 then r
    else Unround(sb, UnroundsFrom(sb, r, ib, ic, ia, x, mul, i + 1), ia, ib, ic, x[i], mul)
  }

  function Unpass(sb: SBoxes, r: Regs, ia: nat, ib: nat, ic: nat, x: Key, mul: word): Regs
    requires Distinct3(ia, ib, ic) && IsMultiplier(mul)
  {
    UnroundsFrom(sb, r, ia, ib, ic, x, mul, 0)
  }

  lemma {:induction false} RoundsBijective(sb: SBoxes, r: Regs, ia: nat, ib: nat, ic: nat, x: Key, mul: word, i: nat)
    requires Distinct3(ia, ib, ic) && i <= 8 && IsMultiplier(mul)
    ensures UnroundsFrom(sb, RoundsFrom(sb, r, ia, ib, ic, x, mul, i), ia, ib, ic, x, mul, i) == r
    ensures RoundsFrom(sb, UnroundsFrom(sb, r, ia, ib, ic, x, mul, i), ia, ib, ic, x, mul, i) == r
    decreases 8 - i
  {
    if i == 8 {
    } else {
      RoundsBijective(sb, Round(sb, r, ia, ib, ic, x[i], mul), ib, ic, ia, x, mul, i + 1);
      RoundBijective(sb, r, ia, ib, ic, x[i], mul);
      RoundsBijective(sb, r, ib, ic, ia, x, mul, i + 1);
      RoundBijective(sb, UnroundsFrom(sb, r, ib, ic, ia, x, mul, i + 1), ia, ib, ic, x[i], mul);
    }
  }

  /** A pass over any fixed key is a bijection on the three registers. */
  lemma PassBijective(sb: SBoxes, r: Regs, ia: nat, ib: nat, ic: nat, x: Key, mul: word)
    requires Distinct3(ia, ib, ic) && IsMultiplier(mul)
    ensures Unpass(sb, Pass(sb, r, ia, ib, ic, x, mul), ia, ib, ic, x, mul) == r
    ensures Pass(sb, Unpass(sb, r, ia, ib, ic, x, mul), ia, ib, ic, x, mul) == r
  {
    RoundsBijective(sb, r, ia, ib, ic, x, mul, 0);
  }

  // ---------- key schedule ----------

  /** What step i mixes into word i mod 8: the previous word, for subtracting steps
      masked by a constant (first and last) or by a shifted complement. */
  function Mask(i: nat, x: Key): word
    requires i < 16
  {
    if i == 0 then Xor(x[7], 0xa5a5_a5a5_a5a5_a5a5)
    else if i == 15 then Xor(x[6], 0x0123_4567_89ab_cdef)
    else if i % 6 == 3 then Xor(x[(i + 7) % 8], ShiftLeft19(Not(x[(i + 6) % 8])))
    else if i % 6 == 0 then Xor(x[(i + 7) % 8], ShiftRight23(Not(x[(i + 6) % 8])))
    else x[(i + 7) % 8]
  }

  /** Step i of the schedule: subtract, exclusive-or, add, in turn. */
  function KeyStep(i: nat, x: Key): Key
    requires i < 16
  {
    var m := Mask(i, x);
    var v := x[i % 8];
    x[i % 8 := if i % 3 == 0 then Sub(v, m) else if i % 3 == 1 then Xor(v, m) else Add(v, m)]
  }

  /** Each step changes one word, subtracting, crossing or adding in turn; what it crosses or
      adds is the word before. */
  lemma KeyStepMixes(i: nat, x: Key)
    requires i < 16
    ensures var y, j, p := KeyStep(i, x), i % 8, x[(i + 7) % 8];
            && (forall k :: 0 <= k < 8 && k != j ==> y[k] == x[k])
            && (i % 3 == 1 ==> Xor(y[j], x[j]) == p)
            && (i % 3 == 2 ==> Sub(y[j], x[j]) == p)
  {
    hide Xor, ShiftLeft19, ShiftRight23;
    XorBack(x[i % 8], x[(i + 7) % 8]);
    AddedBack(x[i % 8], x[(i + 7) % 8]);
  }

  /** What it subtracts is the word before, crossed with a constant in the first and the last
      step, else with the complement of the word before that, shifted left by 19 or right by 23. */
  lemma KeyStepMasks(i: nat, x: Key)
    requires i < 16 && i % 3 == 0
    ensures Xor(Sub(x[i % 8], KeyStep(i, x)[i % 8]), x[(i + 7) % 8])
            == if i == 0 then 0xa5a5_a5a5_a5a5_a5a5
               else if i == 15 then 0x0123_4567_89ab_cdef
               else if i % 6 == 3 then Left19(0xffff_ffff_ffff_ffff - x[(i + 6) % 8])
               else Right23(0xffff_ffff_ffff_ffff - x[(i + 6) % 8])
  {
    hide Xor, ShiftLeft19, ShiftRight23;
    var p, q := x[(i + 7) % 8], x[(i + 6) % 8];
    TakenBack(x[i % 8], Mask(i, x));
    XorBack(p, 0xa5a5_a5a5_a5a5_a5a5);
    XorBack(p, 0x0123_4567_89ab_cdef);
    XorBack(p, ShiftLeft19(Not(q)));
    XorBack(p, ShiftRight23(Not(q)));
    ShiftsAre(Not(q));
  }

  /** 2^19 and 2^23 as numbers. */
  function Left19(u: int): int {
    (u * 524288) % 0x1_0000_0000_0000_0000
  }

  function Right23(u: int): int {
    u / 8388608
  }

  lemma XorBack(u: word, v: word)
    ensures Xor(Xor(u, v), u) == v
  {
    XorCommute(u, v);
    XorCancel(v, u);
  }

  lemma ShiftsAre(u: word)
    ensures ShiftLeft19(u) == Left19(u) && ShiftRight23(u) == Right23(u)
  {
  }

  function KeySteps(x: Key, n: nat): Key
    requires n <= 16
  {
    if n == 0 then x else KeyStep(n - 1, KeySteps(x, n - 1))
  }

  function KeySchedule(x: Key): Key {
    KeySteps(x, 16)
  }

  function KeyUnstep(i: nat, x: Key): Key
    requires i < 16
  {
    var m := Mask(i, x);
    var v := x[i % 8];
    x[i % 8 := if i % 3 == 0 then Add(v, m) else if i % 3 == 1 then Xor(v, m) else Sub(v, m)]
  }

  function KeyUnsteps(x: Key, n: nat): Key
    requires n <= 16
    decreases n
  {
    if n == 0 then x else KeyUnsteps(KeyUnstep(n - 1, x), n - 1)
  }

  /** A step never reads the word it overwrites through its mask. */
  lemma MaskIgnoresTarget(i: nat, x: Key, v: word)
    requires i < 16
    ensures Mask(i, x[i % 8 := v]) == Mask(i, x)
  {
  }

  lemma KeyStepBijective(i: nat, x: Key)
    requires i < 16
    ensures KeyUnstep(i, KeyStep(i, x)) == x
    ensures KeyStep(i, KeyUnstep(i, x)) == x
  {
    var m := Mask(i, x);
    AddSubCancel(x[i % 8], m);
    XorCancel(x[i % 8], m);
    MaskIgnoresTarget(i, x, KeyStep(i, x)[i % 8]);
    MaskIgnoresTarget(i, x, KeyUnstep(i, x)[i % 8]);
  }

  /** The key schedule is a bijection on the eight message words. */
  lemma {:induction false} KeyScheduleBijective(x: Key, n: nat)
    requires n <= 16
    ensures KeyUnsteps(KeySteps(x, n), n) == x
    ensures KeySteps(KeyUnsteps(x, n), n) == x
    decreases n
  {
    if n == 0 {
    } else {
      KeyStepBijective(n - 1, KeySteps(x, n - 1));
      KeyScheduleBijective(x, n - 1);
      KeyStepBijective(n - 1, x);
      KeyScheduleBijective(KeyUnstep(n - 1, x), n - 1);
    }
  }

  /** The sixteen assignments of the source, which read nothing but words already final. */
  method KeyScheduleInPlace(x: array<word>)
    requires x.Length == 8
    modifies x
    ensures x[..] == KeySchedule(old(x[..]))
  {
    ghost var k := x[..];
    x[0] := Sub(x[0], Xor(x[7], 0xa5a5_a5a5_a5a5_a5a5));
    assert x[..] == KeySteps(k, 1);
    x[1] := Xor(x[1], x[0]);
    assert x[..] == KeySteps(k, 2);
    x[2] := Add(x[2], x[1]);
    assert x[..] == KeySteps(k, 3);
    x[3] := Sub(x[3], Xor(x[2], ShiftLeft19(Not(x[1]))));
    assert x[..] == KeySteps(k, 4);
    x[4] := Xor(x[4], x[3]);
    assert x[..] == KeySteps(k, 5);
    x[5] := Add(x[5], x[4]);
    assert x[..] == KeySteps(k, 6);
    x[6] := Sub(x[6], Xor(x[5], ShiftRight23(Not(x[4]))));
    assert x[..] == KeySteps(k, 7);
    x[7] := Xor(x[7], x[6]);
    assert x[..] == KeySteps(k, 8);
    x[0] := Add(x[0], x[7]);
    assert x[..] == KeySteps(k, 9);
    x[1] := Sub(x[1], Xor(x[0], ShiftLeft19(Not(x[7]))));
    assert x[..] == KeySteps(k, 10);
    x[2] := Xor(x[2], x[1]);
    assert x[..] == KeySteps(k, 11);
    x[3] := Add(x[3], x[2]);
    assert x[..] == KeySteps(k, 12);
    x[4] := Sub(x[4], Xor(x[3], ShiftRight23(Not(x[2]))));
    assert x[..] == KeySteps(k, 13);
    x[5] := Xor(x[5], x[4]);
    assert x[..] == KeySteps(k, 14);
    x[6] := Add(x[6], x[5]);
    assert x[..] == KeySteps(k, 15);
    x[7] := Sub(x[7], Xor(x[6], 0x0123_4567_89ab_cdef));
  }

  // ---------- the block function ----------

  /** The three passes with their two key schedules, before the feed-forward. */
  function Inner(sb: SBoxes, x: Key, r: Regs): Regs {
    var y := KeySchedule(x);
    Pass(sb, Pass(sb, Pass(sb, r, 0, 1, 2, x, 5), 2, 0, 1, y, 7), 1, 2, 0, KeySchedule(y), 9)
  }

  function InnerInverse(sb: SBoxes, x: Key, r: Regs): Regs {
    var y := KeySchedule(x);
    Unpass(sb, Unpass(sb, Unpass(sb, r, 1, 2, 0, KeySchedule(y), 9), 2, 0, 1, y, 7), 0, 1, 2, x, 5)
  }

  /** For every message block the inner cipher is a permutation of the register states. */
  lemma InnerPermutation(sb: SBoxes, x: Key, r: Regs)
    ensures InnerInverse(sb, x, Inner(sb, x, r)) == r
    ensures Inner(sb, x, InnerInverse(sb, x, r)) == r
  {
    hide KeySchedule, Pass, Unpass;
    var y := KeySchedule(x);
    var z := KeySchedule(y);
    var r1 := Pass(sb, r, 0, 1, 2, x, 5);
    var r2 := Pass(sb, r1, 2, 0, 1, y, 7);
    PassBijective(sb, r, 0, 1, 2, x, 5);
    PassBijective(sb, r1, 2, 0, 1, y, 7);
    PassBijective(sb, r2, 1, 2, 0, z, 9);
    var s2 := Unpass(sb, r, 1, 2, 0, z, 9);
    var s1 := Unpass(sb, s2, 2, 0, 1, y, 7);
    PassBijective(sb, r, 1, 2, 0, z, 9);
    PassBijective(sb, s2, 2, 0, 1, y, 7);
    PassBijective(sb, s1, 0, 1, 2, x, 5);
  }

  /** The little-endian word at offset 8*i. */
  function LeWord(block: seq<byte>, i: nat): word
    requires 8 * i + 8 <= |block|
  {
    var o := 8 * i;
    (block[o] as int) + (block[o + 1] as int) * 0x100
    + (block[o + 2] as int) * 0x1_0000 + (block[o + 3] as int) * 0x100_0000
    + (block[o + 4] as int) * 0x1_0000_0000 + (block[o + 5] as int) * 0x100_0000_0000
    + (block[o + 6] as int) * 0x1_0000_0000_0000 + (block[o + 7] as int) * 0x100_0000_0000_0000
  }

  function BlockKey(block: seq<byte>): Key
    requires |block| == 64
  {
    seq(8, i requires 0 <= i < 8 => LeWord(block, i))
  }

  function FeedForward(n: Regs, r: Regs): Regs {
    [Xor(n[0], r[0]), Sub(n[1], r[1]), Add(n[2], r[2])]
  }

  function Compress(sb: SBoxes, r: Regs, block: seq<byte>): Regs
    requires |block| == 64
  {
    FeedForward(Inner(sb, BlockKey(block), r), r)
  }

  method InnerInPlace(sb: SBoxes, regs: array<word>, x: array<word>)
    requires regs.Length == 3 && x.Length == 8 && regs != x
    modifies regs, x
    ensures regs[..] == Inner(sb, old(x[..]), old(regs[..]))
  {
    PassInPlace(sb, regs, 0, 1, 2, x, 5);
    KeyScheduleInPlace(x);
    PassInPlace(sb, regs, 2, 0, 1, x, 7);
    KeyScheduleInPlace(x);
    PassInPlace(sb, regs, 1, 2, 0, x, 9);
  }

  /** The working part of roar_hash_tiger_proc_block on locals. */
  method CompressBlock(sb: SBoxes, a0: word, b0: word, c0: word, block: seq<byte>) returns (a: word, b: word, c: word)
    requires |block| == 64
    ensures Triple(a, b, c) == Compress(sb, Triple(a0, b0, c0), block)
  {
    var x := new word[8](i requires 0 <= i < 8 => LeWord(block, i));
    assert x[..] == BlockKey(block);
    var regs := new word[3][a0, b0, c0];
    assert regs[..] == [a0, b0, c0];
    InnerInPlace(sb, regs, x);
    ghost var n := regs[..];
    a := Xor(regs[0], a0);
    b := Sub(regs[1], b0);
    c := Add(regs[2], c0);
    assert [a, b, c] == FeedForward(n, [a0, b0, c0]);
  }

  /** The words of a block are its bytes, least significant first. */
  lemma BlockWords(block: seq<byte>, i: nat)
    requires |block| == 64 && i < 8
    ensures Little(block[8 * i..8 * i + 8]) == BlockKey(block)[i]
  {
    var s := block[8 * i..8 * i + 8];
    Little8(s);
    assert forall k :: 0 <= k < 8 ==> s[k] == block[8 * i + k];
  }

  /** The feed-forward crosses the first register, subtracts the second and adds the third of
      the state before. */
  lemma FeedForwardUndone(sb: SBoxes, r: Regs, block: seq<byte>)
    requires |block| == 64
    ensures var n, y := Inner(sb, BlockKey(block), r), Compress(sb, r, block);
            Xor(y[0], r[0]) == n[0] && Add(y[1], r[1]) == n[1] && Sub(y[2], r[2]) == n[2]
  {
    hide Inner, BlockKey, Xor;
    var n := Inner(sb, BlockKey(block), r);
    XorCancel(n[0], r[0]);
    AddSubCancel(n[1], r[1]);
    AddSubCancel(n[2], r[2]);
  }

  /** With empty tables a pass crosses its first register with the message words 1, 4 and 7, the
      second with 2 and 5, the third with 0, 3 and 6, and multiplies in between. */
  lemma PassRoles(sb: SBoxes, r: Regs, ia: nat, ib: nat, ic: nat, x: Key, mul: word)
    requires Distinct3(ia, ib, ic) && Empty(sb)
    ensures var y := Pass(sb, r, ia, ib, ic, x, mul);
            && y[ia] == First(r[ia], x, mul) && y[ib] == Second(r[ib], x, mul) && y[ic] == Third(r[ic], x, mul)
  {
    hide Round, Mul;
    var r1 := Round(sb, r, ia, ib, ic, x[0], mul);
    EmptyRound(sb, r, ia, ib, ic, x[0], mul);
    var r2 := Round(sb, r1, ib, ic, ia, x[1], mul);
    EmptyRound(sb, r1, ib, ic, ia, x[1], mul);
    var r3 := Round(sb, r2, ic, ia, ib, x[2], mul);
    EmptyRound(sb, r2, ic, ia, ib, x[2], mul);
    var r4 := Round(sb, r3, ia, ib, ic, x[3], mul);
    EmptyRound(sb, r3, ia, ib, ic, x[3], mul);
    var r5 := Round(sb, r4, ib, ic, ia, x[4], mul);
    EmptyRound(sb, r4, ib, ic, ia, x[4], mul);
    var r6 := Round(sb, r5, ic, ia, ib, x[5], mul);
    EmptyRound(sb, r5, ic, ia, ib, x[5], mul);
    var r7 := Round(sb, r6, ia, ib, ic, x[6], mul);
    EmptyRound(sb, r6, ia, ib, ic, x[6], mul);
    var r8 := Round(sb, r7, ib, ic, ia, x[7], mul);
    EmptyRound(sb, r7, ib, ic, ia, x[7], mul);
    assert RoundsFrom(sb, r7, ib, ic, ia, x, mul, 7) == r8;
    assert RoundsFrom(sb, r6, ia, ib, ic, x, mul, 6) == RoundsFrom(sb, r7, ib, ic, ia, x, mul, 7);
    assert RoundsFrom(sb, r5, ic, ia, ib, x, mul, 5) == RoundsFrom(sb, r6, ia, ib, ic, x, mul, 6);
    assert RoundsFrom(sb, r4, ib, ic, ia, x, mul, 4) == RoundsFrom(sb, r5, ic, ia, ib, x, mul, 5);
    assert RoundsFrom(sb, r3, ia, ib, ic, x, mul, 3) == RoundsFrom(sb, r4, ib, ic, ia, x, mul, 4);
    assert RoundsFrom(sb, r2, ic, ia, ib, x, mul, 2) == RoundsFrom(sb, r3, ia, ib, ic, x, mul, 3);
    assert RoundsFrom(sb, r1, ib, ic, ia, x, mul, 1) == RoundsFrom(sb, r2, ic, ia, ib, x, mul, 2);
  }

  ghost predicate Empty(sb: SBoxes) {
    forall v: byte :: sb.t1(v) == 0 && sb.t2(v) == 0 && sb.t3(v) == 0 && sb.t4(v) == 0
  }

  function First(v: word, x: Key, mul: word): word {
    Xor(Mul(Xor(Mul(Xor(v, x[1]), mul), x[4]), mul), x[7])
  }

  function Second(v: word, x: Key, mul: word): word {
    Mul(Xor(Mul(Xor(Mul(v, mul), x[2]), mul), x[5]), mul)
  }

  function Third(v: word, x: Key, mul: word): word {
    Mul(Xor(Mul(Xor(Mul(Xor(v, x[0]), mul), x[3]), mul), x[6]), mul)
  }

  /** With empty tables the three passes take each register through each of the three roles, with
      the message words scheduled no, one and two times and the multipliers 5, 7 and 9. */
  lemma InnerRoles(sb: SBoxes, r: Regs, x: Key)
    requires Empty(sb)
    ensures var n, y, z := Inner(sb, x, r), KeySchedule(x), KeySchedule(KeySchedule(x));
            && n[0] == Third(Second(First(r[0], x, 5), y, 7), z, 9)
            && n[1] == First(Third(Second(r[1], x, 5), y, 7), z, 9)
            && n[2] == Second(First(Third(r[2], x, 5), y, 7), z, 9)
  {
    hide Pass, KeySchedule, First, Second, Third;
    var y := KeySchedule(x);
    var r1 := Pass(sb, r, 0, 1, 2, x, 5);
    var r2 := Pass(sb, r1, 2, 0, 1, y, 7);
    PassRoles(sb, r, 0, 1, 2, x, 5);
    PassRoles(sb, r1, 2, 0, 1, y, 7);
    PassRoles(sb, r2, 1, 2, 0, KeySchedule(y), 9);
  }

  lemma EmptyRound(sb: SBoxes, r: Regs, ia: nat, ib: nat, ic: nat, x: word, mul: word)
    requires Distinct3(ia, ib, ic) && Empty(sb)
    ensures Round(sb, r, ia, ib, ic, x, mul) == r[ic := Xor(r[ic], x)][ib := Mul(r[ib], mul)]
  {
    hide Octet;
    XorNothing(0);
  }

  lemma XorNothing(u: word)
    ensures Xor(u, 0) == u
  {
    XorBitsNothing(u);
  }

  lemma {:induction false} XorBitsNothing(u: nat)
    ensures XorBits(u, 0) == u
  {
    if u > 0 {
      XorBitsNothing(u / 2);
    }
  }
}
