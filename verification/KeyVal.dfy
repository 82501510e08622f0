/** Splitting a parameter string into key and value in place: the delimiters are overwritten
    with NULs and the entries point into the string. A pointer is an index into the memory of
    the string; None stands for NULL. */
module KeyVal {
  import opened Util

  /** struct roar_keyval. */
  datatype Entry = Entry(key: Option<nat>, value: Option<nat>)

  /** What an entry says, apart from where in memory it says it. */
  datatype Pair = Pair(key: string, value: Option<string>)

  const NUL := '\0'

  /** The C string that starts at index i. */
  function CStr(s: seq<char>, i: nat): (t: string)
    ensures i <= |s| ==> i + |t| <= |s| && t == s[i..i + |t|]
    ensures i + |t| < |s| ==> s[i + |t|] == NUL
    ensures forall q :: 0 <= q < |t| ==> t[q] != NUL
    decreases |s| - i
  {
    if i >= |s| || s[i] == NUL then "" else [s[i]] + CStr(s, i + 1)
  }

  // ---------- the tokenizer on strings ----------

  /** The pieces between delimiters, empty ones included. */
  function Pieces(t: string, fdel: string): (r: seq<string>)
    ensures |r| > 0
  {
    if t == "" then [""]
    else
      var r := Pieces(t[1..], fdel);
      if t[0] in fdel then [""] + r else [[t[0]] + r[0]] + r[1..]
  }

  function NonEmpty(r: seq<string>): seq<string> {
    if r == [] then [] else (if r[0] == "" then [] else [r[0]]) + NonEmpty(r[1..])
  }

  /** Where the key of a segment ends: the first key delimiter from index i on, or its end. */
  function KeyEnd(seg: string, kdel: string, i: nat): (e: nat)
    requires i <= |seg|
    ensures i <= e <= |seg|
    ensures forall q :: i <= q < e ==> seg[q] !in kdel
    ensures e < |seg| ==> seg[e] in kdel
    decreases |seg| - i
  {
    if i == |seg| || seg[i] in kdel then i else KeyEnd(seg, kdel, i + 1)
  }

  /** Where the value of a segment starting at p and seen up to e starts: behind the last key
      delimiter after its first character. */
  function ValueStart(t: string, kdel: string, p: nat, e: nat): (v: Option<nat>)
    requires e <= |t|
    ensures v.None? ==> forall q :: p < q < e ==> t[q] !in kdel
    ensures v.Some? ==> p + 1 < v.value <= e && t[v.value - 1] in kdel
                        && forall q :: v.value <= q < e ==> t[q] !in kdel
  {
    if e <= p + 1 then None
    else if t[e - 1] in kdel then Some(e)
    else ValueStart(t, kdel, p, e - 1)
  }

  function Cut(seg: string, kdel: string): Pair
    requires seg != ""
  {
    var v := ValueStart(seg, kdel, 0, |seg|);
    Pair(seg[..KeyEnd(seg, kdel, 1)], if v.None? then None else Some(seg[v.value..]))
  }

  function CutAll(segs: seq<string>, kdel: string): (r: seq<Pair>)
    requires forall i :: 0 <= i < |segs| ==> segs[i] != ""
    ensures |r| == |segs| && forall i :: 0 <= i < |segs| ==> r[i] == Cut(segs[i], kdel)
  {
    seq(|segs|, i requires 0 <= i < |segs| => Cut(segs[i], kdel))
  }

  lemma {:induction false} NoneEmpty(r: seq<string>)
    ensures forall i :: 0 <= i < |NonEmpty(r)| ==> NonEmpty(r)[i] != ""
  {
    if r != [] {
      NoneEmpty(r[1..]);
    }
  }

  /** Split at the field delimiters, drop empty pieces, cut each at its key delimiters. */
  function Tokens(t: string, fdel: string, kdel: string): seq<Pair> {
    NoneEmpty(Pieces(t, fdel));
    CutAll(NonEmpty(Pieces(t, fdel)), kdel)
  }

  // ---------- the same by positions ----------

  predicate IsStart(t: string, fdel: string, i: nat) {
    i < |t| && t[i] !in fdel && (i == 0 || t[i - 1] in fdel)
  }

  /** The positions from i on at which a segment starts. */
  function Starts(t: string, fdel: string, i: nat): (r: seq<nat>)
    ensures forall j :: 0 <= j < |r| ==> r[j] < |t|
    decreases |t| - i
  {
    if i >= |t| then []
    else if IsStart(t, fdel, i) then [i] + Starts(t, fdel, i + 1)
    else Starts(t, fdel, i + 1)
  }

  lemma {:induction false} StartsAreStarts(t: string, fdel: string, i: nat, j: nat)
    requires j < |Starts(t, fdel, i)|
    ensures IsStart(t, fdel, Starts(t, fdel, i)[j])
    decreases |t| - i
  {
    if IsStart(t, fdel, i) {
      if j > 0 {
        StartsAreStarts(t, fdel, i + 1, j - 1);
      }
    } else {
      StartsAreStarts(t, fdel, i + 1, j);
    }
  }

  /** The first field delimiter from i on, or the end. */
  function End(t: string, fdel: string, i: nat): (e: nat)
    requires i <= |t|
    ensures i <= e <= |t|
    ensures forall q :: i <= q < e ==> t[q] !in fdel
    ensures e < |t| ==> t[e] in fdel
    decreases |t| - i
  {
    if i == |t| || t[i] in fdel then i else End(t, fdel, i + 1)
  }

  /** The segments that start at the given positions. */
  function Segments(t: string, fdel: string, starts: seq<nat>): (r: seq<string>)
    requires forall j :: 0 <= j < |starts| ==> starts[j] < |t|
    ensures |r| == |starts|
  {
    seq(|starts|, j requires 0 <= j < |starts| => t[starts[j]..End(t, fdel, starts[j])])
  }

  lemma PiecesStep(t: string, fdel: string, i: nat)
    requires i < |t|
    ensures var r, r' := Pieces(t[i..], fdel), Pieces(t[i + 1..], fdel);
            if t[i] in fdel then r[0] == "" && r[1..] == r' else r[0] == [t[i]] + r'[0] && r[1..] == r'[1..]
  {
    assert t[i..][1..] == t[i + 1..];
  }

  /** What lies before the next delimiter is the first piece. */
  lemma {:induction false} FirstIsToEnd(t: string, fdel: string, i: nat)
    requires i <= |t|
    ensures Pieces(t[i..], fdel)[0] == t[i..End(t, fdel, i)]
    decreases |t| - i
  {
    if i < |t| {
      PiecesStep(t, fdel, i);
      FirstIsToEnd(t, fdel, i + 1);
    }
  }

  /** From any position: the segment that starts there, then the non-empty pieces behind. */
  lemma {:induction false} SegmentsArePieces(t: string, fdel: string, i: nat)
    requires i <= |t|
    ensures Segments(t, fdel, Starts(t, fdel, i))
         == (if IsStart(t, fdel, i) then [t[i..End(t, fdel, i)]] else []) + NonEmpty(Pieces(t[i..], fdel)[1..])
    decreases |t| - i
  {
    hide Pieces, NonEmpty, Starts, Segments;
    if i < |t| {
      SegmentsArePieces(t, fdel, i + 1);
      PiecesStep(t, fdel, i);
      SegmentsStep(t, fdel, i);
      if t[i] in fdel {
        FirstIsToEnd(t, fdel, i + 1);
        NonEmptyStep(Pieces(t[i + 1..], fdel));
      }
    } else {
      NoSegment(t, fdel);
      NoPiece(fdel);
      assert t[i..] == "";
    }
  }

  lemma NoPiece(fdel: string)
    ensures Pieces("", fdel) == [""] && NonEmpty([]) == []
  {
  }

  lemma NonEmptyStep(r: seq<string>)
    requires r != []
    ensures NonEmpty(r) == (if r[0] == "" then [] else [r[0]]) + NonEmpty(r[1..])
  {
  }

  lemma NoSegment(t: string, fdel: string)
    ensures Segments(t, fdel, Starts(t, fdel, |t|)) == []
  {
  }

  lemma SegmentsStep(t: string, fdel: string, i: nat)
    requires i < |t|
    ensures Segments(t, fdel, Starts(t, fdel, i))
         == (if IsStart(t, fdel, i) then [t[i..End(t, fdel, i)]] else []) + Segments(t, fdel, Starts(t, fdel, i + 1))
  {
    hide End;
    if !IsStart(t, fdel, i) {
      assert Starts(t, fdel, i) == Starts(t, fdel, i + 1);
    }
  }

  /** The segments found by position are the non-empty pieces of the string. */
  lemma SegmentsAreNonEmptyPieces(t: string, fdel: string)
    ensures Segments(t, fdel, Starts(t, fdel, 0)) == NonEmpty(Pieces(t, fdel))
  {
    assert t[0..] == t;
    FirstIsToEnd(t, fdel, 0);
    SegmentsArePieces(t, fdel, 0);
  }

  // ---------- the memory afterwards ----------

  /** The characters the fill pass overwrites: a delimiter right behind a segment's character. */
  predicate Zeroed(t: string, fdel: string, kdel: string, q: nat) {
    0 < q < |t| && t[q - 1] !in fdel && (t[q] in fdel || t[q] in kdel)
  }

  /** Memory s that starts with string t after its first n characters were passed. */
  ghost predicate PassedTo(m: seq<char>, s: seq<char>, t: string, fdel: string, kdel: string, n: nat) {
    && |m| == |s|
    && forall q :: 0 <= q < |s| ==> m[q] == if q < n && Zeroed(t, fdel, kdel, q) then NUL else s[q]
  }

  ghost predicate Holds(s: seq<char>, t: string) {
    && |t| < |s| && t == s[..|t|] && s[|t|] == NUL
    && forall q :: 0 <= q < |t| ==> t[q] != NUL
  }

  lemma {:induction false} CStrIs(m: seq<char>, p: nat, e: nat)
    requires p <= e < |m| && m[e] == NUL
    requires forall q :: p <= q < e ==> m[q] != NUL
    ensures CStr(m, p) == m[p..e]
    decreases e - p
  {
    if p < e {
      CStrIs(m, p + 1, e);
    }
  }

  lemma {:induction false} ValueStartShift(t: string, kdel: string, p: nat, e: nat, n: nat)
    requires p <= n <= e <= |t|
    ensures ValueStart(t, kdel, p, n)
         == match ValueStart(t[p..e], kdel, 0, n - p) case None => None case Some(v) => Some(p + v)
    decreases n
  {
    if n > p + 1 {
      ValueStartShift(t, kdel, p, e, n - 1);
    }
  }

  /** An entry says pair c: its pointers lead to the C strings of c. */
  ghost predicate Says(m: seq<char>, kv: Entry, c: Pair) {
    && kv.key.Some? && CStr(m, kv.key.value) == c.key
    && (kv.value.Some? <==> c.value.Some?)
    && (kv.value.Some? ==> CStr(m, kv.value.value) == c.value.value)
  }

  /** The entry the fill pass makes of the segment at p. */
  function EntryAt(t: string, fdel: string, kdel: string, p: nat): Entry
    requires p <= |t|
  {
    Entry(Some(p), ValueStart(t, kdel, p, End(t, fdel, p)))
  }

  /** The key of the segment at p, in memory: from p to the first character overwritten. */
  lemma KeySays(m: seq<char>, s: seq<char>, t: string, fdel: string, kdel: string, p: nat)
    requires Holds(s, t) && PassedTo(m, s, t, fdel, kdel, |t|)
    requires IsStart(t, fdel, p)
    ensures p < End(t, fdel, p)
    ensures CStr(m, p) == Cut(t[p..End(t, fdel, p)], kdel).key
  {
    hide CStr, ValueStart;
    var e := End(t, fdel, p);
    var seg := t[p..e];
    var k := p + KeyEnd(seg, kdel, 1);
    assert forall q :: p <= q < e ==> t[q] == seg[q - p];
    assert m[k] == NUL;
    assert forall q :: p <= q < k ==> m[q] == t[q];
    CStrIs(m, p, k);
    assert m[p..k] == seg[..k - p];
  }

  /** Where a segment has no key delimiter, memory is as it was. */
  lemma InMemory(m: seq<char>, s: seq<char>, t: string, fdel: string, kdel: string, p: nat, v: nat, e: nat)
    requires Holds(s, t) && PassedTo(m, s, t, fdel, kdel, |t|) && p <= v <= e <= |t|
    requires forall q :: v <= q < e ==> t[q] !in fdel && t[q] !in kdel
    ensures |m| == |s| && forall q :: v <= q < e ==> m[q] == t[q] != NUL
    ensures m[v..e] == t[p..e][v - p..]
  {
  }

  /** A segment is followed by a NUL. */
  lemma SegmentEnds(m: seq<char>, s: seq<char>, t: string, fdel: string, kdel: string, p: nat)
    requires Holds(s, t) && PassedTo(m, s, t, fdel, kdel, |t|) && IsStart(t, fdel, p)
    ensures p < End(t, fdel, p) < |m| && m[End(t, fdel, p)] == NUL
  {
  }

  /** Its value, in memory: from behind the last character overwritten to its end. */
  lemma ValueSays(m: seq<char>, s: seq<char>, t: string, fdel: string, kdel: string, p: nat)
    requires Holds(s, t) && PassedTo(m, s, t, fdel, kdel, |t|)
    requires IsStart(t, fdel, p)
    ensures p < End(t, fdel, p)
    ensures var v, c := ValueStart(t, kdel, p, End(t, fdel, p)), Cut(t[p..End(t, fdel, p)], kdel).value;
            (v.Some? <==> c.Some?) && (v.Some? ==> CStr(m, v.value) == c.value)
  {
    hide CStr, KeyEnd, ValueStart, End, PassedTo;
    var e := End(t, fdel, p);
    ValueStartShift(t, kdel, p, e, e);
    var v := ValueStart(t, kdel, p, e);
    SegmentEnds(m, s, t, fdel, kdel, p);
    if v.Some? {
      InMemory(m, s, t, fdel, kdel, p, v.value, e);
      CStrIs(m, v.value, e);
    }
  }

  /** In the memory left behind, the entry of a segment says what cutting the segment gives. */
  lemma EntrySays(m: seq<char>, s: seq<char>, t: string, fdel: string, kdel: string, p: nat)
    requires Holds(s, t) && PassedTo(m, s, t, fdel, kdel, |t|)
    requires IsStart(t, fdel, p)
    ensures p < End(t, fdel, p)
    ensures Says(m, EntryAt(t, fdel, kdel, p), Cut(t[p..End(t, fdel, p)], kdel))
  {
    hide Cut, ValueStart, CStr;
    KeySays(m, s, t, fdel, kdel, p);
    ValueSays(m, s, t, fdel, kdel, p);
  }

  // ---------- the passes ----------

  method IsIn(c: char, delm: string) returns (r: bool)
    ensures r <==> c in delm
  {
    for i := 0 to |delm|
      invariant c !in delm[..i]
    {
      if delm[i] == c {
        return true;
      }
    }
    return false;
  }

  /** The first loop: how many segments there are. */
  method Count(str: array<char>, fdel: string, ghost t: string) returns (len: nat)
    requires Holds(str[..], t)
    ensures len == |Starts(t, fdel, 0)|
  {
    len := 0;
    var lastWasSeg := false;
    var sp := 0;
    while str[sp] != NUL
      invariant sp <= |t|
      invariant lastWasSeg <==> sp > 0 && t[sp - 1] !in fdel
      invariant |Starts(t, fdel, 0)| == len + |Starts(t, fdel, sp)|
      decreases |t| - sp
    {
      assert t[sp] == str[sp];
      var field := IsIn(str[sp], fdel);
      if lastWasSeg {
        lastWasSeg := !field;
      } else {
        if !field {
          lastWasSeg := true;
          len := len + 1;
        }
      }
      sp := sp + 1;
    }
  }

  lemma StartsStep(t: string, fdel: string, i: nat)
    requires i < |t|
    ensures IsStart(t, fdel, i) ==> Starts(t, fdel, i) == [i] + Starts(t, fdel, i + 1)
    ensures !IsStart(t, fdel, i) ==> Starts(t, fdel, i) == Starts(t, fdel, i + 1)
  {
  }

  lemma StartsEnd(t: string, fdel: string)
    ensures Starts(t, fdel, |t|) == []
  {
  }

  lemma ValueFirst(t: string, kdel: string, p: nat)
    requires p < |t|
    ensures ValueStart(t, kdel, p, p + 1) == None
  {
  }

  lemma ValueStep(t: string, kdel: string, p: nat, e: nat)
    requires p < e < |t|
    ensures ValueStart(t, kdel, p, e + 1) == if t[e] in kdel then Some(e + 1) else ValueStart(t, kdel, p, e)
  {
  }

  /** The character the second loop is at is still what it was, and so is every later one. */
  lemma Unread(m: seq<char>, s: seq<char>, t: string, fdel: string, kdel: string, sp: nat)
    requires PassedTo(m, s, t, fdel, kdel, sp) && Holds(s, t) && sp <= |t|
    ensures |m| == |s| && m[sp..] == s[sp..] && m[sp] == s[sp]
    ensures sp < |t| ==> m[sp] == t[sp] != NUL
    ensures sp == |t| ==> m[sp] == NUL
  {
  }

  lemma PassedStep(m: seq<char>, s: seq<char>, t: string, fdel: string, kdel: string, sp: nat)
    requires PassedTo(m, s, t, fdel, kdel, sp) && Holds(s, t) && sp < |t|
    ensures |m| == |s|
    ensures PassedTo(if Zeroed(t, fdel, kdel, sp) then m[sp := NUL] else m, s, t, fdel, kdel, sp + 1)
  {
  }

  /** Position sp is behind a character of a segment: last_was_seg. */
  predicate Inside(t: string, fdel: string, sp: nat)
    requires sp <= |t|
  {
    sp > 0 && t[sp - 1] !in fdel
  }

  /** From number k on, the starts are those of rest. */
  predicate LeftIs(starts: seq<nat>, k: nat, rest: seq<nat>) {
    k <= |starts| && starts[k..] == rest
  }

  lemma NextLeft(starts: seq<nat>, k: nat, x: nat, rest: seq<nat>)
    requires LeftIs(starts, k, [x] + rest)
    ensures k < |starts| && starts[k] == x && LeftIs(starts, k + 1, rest)
  {
    assert starts[k] == starts[k..][0];
    assert starts[k + 1..] == starts[k..][1..];
  }

  lemma NoneLeft(starts: seq<nat>, k: nat)
    ensures LeftIs(starts, k, []) <==> k == |starts|
    ensures LeftIs(starts, 0, starts)
  {
  }

  /** The entries up to pos are those of the segments that start before sp; the one sp is inside
      of has the value seen so far. */
  ghost predicate Entered(kv: seq<Entry>, t: string, fdel: string, kdel: string, pos: int, sp: nat) {
    var starts := Starts(t, fdel, 0);
    && sp <= |t| && -1 <= pos < |starts| == |kv| - 1
    && LeftIs(starts, pos + 1, Starts(t, fdel, sp))
    && (forall j :: 0 <= j < pos ==> kv[j] == EntryAt(t, fdel, kdel, starts[j]))
    && (pos >= 0 && !Inside(t, fdel, sp) ==> kv[pos] == EntryAt(t, fdel, kdel, starts[pos]))
    && (Inside(t, fdel, sp) ==>
          && pos >= 0 && starts[pos] < sp && InSegment(t, fdel, starts[pos], sp)
          && kv[pos] == Entry(Some(starts[pos]), ValueStart(t, kdel, starts[pos], sp)))
  }

  lemma EnteredNone(kv: seq<Entry>, t: string, fdel: string, kdel: string)
    requires |kv| == |Starts(t, fdel, 0)| + 1
    ensures Entered(kv, t, fdel, kdel, -1, 0)
  {
    hide Starts;
    NoneLeft(Starts(t, fdel, 0), 0);
  }

  /** Outside of a segment a field delimiter changes nothing. */
  lemma EnteredBetween(kv: seq<Entry>, t: string, fdel: string, kdel: string, pos: int, sp: nat)
    requires Entered(kv, t, fdel, kdel, pos, sp) && sp < |t| && !Inside(t, fdel, sp) && t[sp] in fdel
    ensures Entered(kv, t, fdel, kdel, pos, sp + 1)
  {
    hide Starts, ValueStart, End, EntryAt, LeftIs;
    StartsStep(t, fdel, sp);
  }

  /** Any other character starts the next segment. */
  lemma EnteredStart(kv: seq<Entry>, t: string, fdel: string, kdel: string, pos: int, sp: nat)
    requires Entered(kv, t, fdel, kdel, pos, sp) && sp < |t| && !Inside(t, fdel, sp) && t[sp] !in fdel
    ensures 0 <= pos + 1 < |kv| - 1
    ensures Entered(kv[pos + 1 := Entry(Some(sp), None)], t, fdel, kdel, pos + 1, sp + 1)
  {
    hide Starts, ValueStart, End, EntryAt, LeftIs;
    StartsStep(t, fdel, sp);
    ValueFirst(t, kdel, sp);
    NextLeft(Starts(t, fdel, 0), pos + 1, sp, Starts(t, fdel, sp + 1));
  }

  /** Inside of one: it ends, or its value starts anew, or nothing happens. */
  lemma EnteredInside(kv: seq<Entry>, t: string, fdel: string, kdel: string, pos: int, sp: nat)
    requires Entered(kv, t, fdel, kdel, pos, sp) && sp < |t| && Inside(t, fdel, sp)
    ensures 0 <= pos < |kv| - 1
    ensures t[sp] in fdel ==> Entered(kv, t, fdel, kdel, pos, sp + 1)
    ensures t[sp] !in fdel && t[sp] !in kdel ==> Entered(kv, t, fdel, kdel, pos, sp + 1)
    ensures t[sp] !in fdel && t[sp] in kdel ==>
              Entered(kv[pos := kv[pos].(value := Some(sp + 1))], t, fdel, kdel, pos, sp + 1)
  {
    hide Starts, ValueStart, End, LeftIs;
    var p := Starts(t, fdel, 0)[pos];
    StartsStep(t, fdel, sp);
    ValueStep(t, kdel, p, sp);
    if t[sp] in fdel {
      EndIs(t, fdel, p, sp);
    }
  }

  lemma EnteredAll(kv: seq<Entry>, t: string, fdel: string, kdel: string, pos: int)
    requires Entered(kv, t, fdel, kdel, pos, |t|)
    ensures |kv| == |Starts(t, fdel, 0)| + 1
    ensures forall j :: 0 <= j < |kv| - 1 ==> kv[j] == EntryAt(t, fdel, kdel, Starts(t, fdel, 0)[j])
  {
    hide Starts, ValueStart, End, LeftIs;
    StartsEnd(t, fdel);
    NoneLeft(Starts(t, fdel, 0), pos + 1);
    if Inside(t, fdel, |t|) {
      EndIs(t, fdel, Starts(t, fdel, 0)[pos], |t|);
    }
  }

  /** The second loop: it writes entry 0, 1, ... for the segments in order, and no other, and
      meets every character of the string as it was. */
  method Fill(str: array<char>, fdel: string, kdel: string, kvs: array<Entry>, ghost t: string)
    requires Holds(str[..], t)
    requires kvs.Length == |Starts(t, fdel, 0)| + 1
    modifies str, kvs
    ensures PassedTo(str[..], old(str[..]), t, fdel, kdel, |t|)
    ensures forall j :: 0 <= j < kvs.Length - 1 ==> kvs[j] == EntryAt(t, fdel, kdel, Starts(t, fdel, 0)[j])
    ensures kvs[kvs.Length - 1] == old(kvs[kvs.Length - 1])
  {
    hide Starts, PassedTo, Entered;
    ghost var s := str[..];
    var pos := -1;
    var lastWasSeg := false;
    var sp := 0;
    PassedNone(s, t, fdel, kdel);
    EnteredNone(kvs[..], t, fdel, kdel);
    while str[sp] != NUL
      invariant sp <= |t|
      invariant lastWasSeg <==> Inside(t, fdel, sp)
      invariant PassedTo(str[..], s, t, fdel, kdel, sp)
      invariant Entered(kvs[..], t, fdel, kdel, pos, sp)
      invariant kvs[kvs.Length - 1] == old(kvs[kvs.Length - 1])
      decreases |t| - sp
    {
      Unread(str[..], s, t, fdel, kdel, sp);
      PassedStep(str[..], s, t, fdel, kdel, sp);
      var field := IsIn(str[sp], fdel);
      if lastWasSeg {
        EnteredInside(kvs[..], t, fdel, kdel, pos, sp);
        if field {
          lastWasSeg := false;
          str[sp] := NUL;
        } else {
          var key := IsIn(str[sp], kdel);
          if key {
            str[sp] := NUL;
            kvs[pos] := kvs[pos].(value := Some(sp + 1));
          }
        }
      } else {
        if field {
          EnteredBetween(kvs[..], t, fdel, kdel, pos, sp);
        } else {
          EnteredStart(kvs[..], t, fdel, kdel, pos, sp);
          lastWasSeg := true;
          pos := pos + 1;
          kvs[pos] := Entry(Some(sp), None);
        }
      }
      sp := sp + 1;
    }
    Unread(str[..], s, t, fdel, kdel, sp);
    EnteredAll(kvs[..], t, fdel, kdel, pos);
  }

  lemma PassedNone(s: seq<char>, t: string, fdel: string, kdel: string)
    ensures PassedTo(s, s, t, fdel, kdel, 0)
  {
  }

  ghost predicate InSegment(t: string, fdel: string, p: nat, sp: nat)
    requires sp <= |t|
  {
    forall q :: p <= q < sp ==> t[q] !in fdel
  }

  lemma EndIs(t: string, fdel: string, p: nat, e: nat)
    requires p <= e <= |t| && InSegment(t, fdel, p, e) && (e == |t| || t[e] in fdel)
    ensures End(t, fdel, p) == e
  {
  }

  /** roar_keyval_split: as many entries as there are tokens, each saying its token, and the end
      mark behind them. Only delimiters change, and only to NUL. */
  method Split(str: array<char>, fieldDel: Option<string>, keyDel: Option<string>, quotes: int)
    returns (len: int, kvs: array<Entry>)
    requires NUL in str[..]
    modifies str
    ensures quotes != 0 ==> len == -1 && str[..] == old(str[..])
    ensures var t, fdel, kdel := old(CStr(str[..], 0)), Delimiters(fieldDel, " \t,"), Delimiters(keyDel, "=:");
            quotes == 0 ==>
              && len == |Tokens(t, fdel, kdel)| && kvs.Length == len + 1
              && kvs[len] == Entry(None, None)
              && (forall j :: 0 <= j < len ==> Says(str[..], kvs[j], Tokens(t, fdel, kdel)[j]))
              && PassedTo(str[..], old(str[..]), t, fdel, kdel, |t|)
  {
    if quotes != 0 {
      kvs := new Entry[0];
      return -1, kvs;
    }
    var fdel := if fieldDel.None? then " \t," else fieldDel.value;
    var kdel := if keyDel.None? then "=:" else keyDel.value;
    ghost var s, t := str[..], CStr(str[..], 0);
    CStrHeld(s);
    var n := Count(str, fdel, t);
    kvs := new Entry[n + 1](i => Entry(None, None));
    Fill(str, fdel, kdel, kvs, t);
    SegmentsAreNonEmptyPieces(t, fdel);
    forall j | 0 <= j < n ensures Says(str[..], kvs[j], Tokens(t, fdel, kdel)[j]) {
      StartsAreStarts(t, fdel, 0, j);
      EntrySays(str[..], s, t, fdel, kdel, Starts(t, fdel, 0)[j]);
    }
    len := n;
  }

  function Delimiters(given: Option<string>, usual: string): string {
    if given.None? then usual else given.value
  }

  lemma CStrHeld(s: seq<char>)
    requires NUL in s
    ensures Holds(s, CStr(s, 0))
  {
  }

  // ---------- writing such a string ----------

  /** A pair can be written with key delimiter d when its parts hold no delimiter; the first
      character of the key may be a key delimiter. */
  ghost predicate Writable(c: Pair, fdel: string, kdel: string) {
    && c.key != ""
    && (forall q :: 0 <= q < |c.key| ==> c.key[q] !in fdel && (q > 0 ==> c.key[q] !in kdel))
    && (c.value.Some? ==> forall q :: 0 <= q < |c.value.value| ==> c.value.value[q] !in fdel && c.value.value[q] !in kdel)
  }

  function Written(c: Pair, k: char): (r: string)
    ensures |r| >= |c.key|
  {
    c.key + if c.value.None? then "" else [k] + c.value.value
  }

  /** The pairs one behind the other, each followed by field delimiter f. */
  function WrittenAll(cs: seq<Pair>, f: char, k: char): string {
    if cs == [] then "" else Written(cs[0], k) + [f] + WrittenAll(cs[1..], f, k)
  }

  lemma CutWritten(c: Pair, fdel: string, kdel: string, k: char)
    requires Writable(c, fdel, kdel) && k in kdel
    ensures Written(c, k) != "" && Cut(Written(c, k), kdel) == c
  {
    var seg := Written(c, k);
    var n := |c.key|;
    assert seg[..n] == c.key;
    assert forall q :: 1 <= q < n ==> seg[q] == c.key[q];
    assert n == |seg| || seg[n] == k;
    assert KeyEnd(seg, kdel, 1) == n;
    if c.value.Some? {
      assert seg[n + 1..] == c.value.value;
      assert forall q :: n + 1 <= q < |seg| ==> seg[q] == c.value.value[q - n - 1];
      assert ValueStart(seg, kdel, 0, |seg|) == Some(n + 1);
    }
  }

  lemma {:induction false} FirstPiece(a: string, f: char, b: string, fdel: string)
    requires f in fdel && forall q :: 0 <= q < |a| ==> a[q] !in fdel
    ensures Pieces(a + [f] + b, fdel) == [a] + Pieces(b, fdel)
  {
    var t := a + [f] + b;
    if a == "" {
      assert t[1..] == b;
    } else {
      FirstPiece(a[1..], f, b, fdel);
      assert t[1..] == a[1..] + [f] + b;
      assert [a[0]] + a[1..] == a;
    }
  }

  lemma {:induction false} PiecesHaveNone(t: string, fdel: string)
    ensures forall i, q :: 0 <= i < |Pieces(t, fdel)| && 0 <= q < |Pieces(t, fdel)[i]| ==> Pieces(t, fdel)[i][q] !in fdel
  {
    if t != "" {
      PiecesHaveNone(t[1..], fdel);
      var r := Pieces(t[1..], fdel);
      assert forall q :: 0 <= q < |r[0]| ==> r[0][q] !in fdel;
    }
  }

  lemma {:induction false} NonEmptyAmong(r: seq<string>)
    ensures forall i :: 0 <= i < |NonEmpty(r)| ==> NonEmpty(r)[i] in r
  {
    if r != [] {
      NonEmptyAmong(r[1..]);
    }
  }

  /** Every token of any string could have been written. */
  lemma TokensAreWritable(t: string, fdel: string, kdel: string)
    ensures forall i :: 0 <= i < |Tokens(t, fdel, kdel)| ==> Writable(Tokens(t, fdel, kdel)[i], fdel, kdel)
  {
    hide Pieces, NonEmpty;
    var r := Pieces(t, fdel);
    PiecesHaveNone(t, fdel);
    NonEmptyAmong(r);
    NoneEmpty(r);
    forall i | 0 <= i < |NonEmpty(r)| ensures Writable(Cut(NonEmpty(r)[i], kdel), fdel, kdel) {
      var j :| 0 <= j < |r| && r[j] == NonEmpty(r)[i];
      CutIsWritable(r[j], fdel, kdel);
    }
  }

  lemma CutIsWritable(seg: string, fdel: string, kdel: string)
    requires seg != "" && forall q :: 0 <= q < |seg| ==> seg[q] !in fdel
    ensures Writable(Cut(seg, kdel), fdel, kdel)
  {
    hide KeyEnd, ValueStart;
    var c := Cut(seg, kdel);
    assert forall q :: 0 <= q < |c.key| ==> c.key[q] == seg[q];
    if c.value.Some? {
      var v := ValueStart(seg, kdel, 0, |seg|).value;
      assert forall q :: 0 <= q < |c.value.value| ==> c.value.value[q] == seg[v + q];
    }
  }

  /** Pairs written one behind the other come back as the same pairs exactly if each of them
      can be written. */
  lemma ComesBackIffWritable(cs: seq<Pair>, fdel: string, kdel: string, f: char, k: char)
    requires f in fdel && k in kdel && k !in fdel
    ensures Tokens(WrittenAll(cs, f, k), fdel, kdel) == cs <==> forall i :: 0 <= i < |cs| ==> Writable(cs[i], fdel, kdel)
  {
    hide Tokens, WrittenAll, Writable;
    TokensAreWritable(WrittenAll(cs, f, k), fdel, kdel);
    if forall i :: 0 <= i < |cs| ==> Writable(cs[i], fdel, kdel) {
      WrittenComesBack(cs, fdel, kdel, f, k);
    }
  }

  lemma {:induction false} WrittenComesBack(cs: seq<Pair>, fdel: string, kdel: string, f: char, k: char)
    requires f in fdel && k in kdel && k !in fdel
    requires forall i :: 0 <= i < |cs| ==> Writable(cs[i], fdel, kdel)
    ensures Tokens(WrittenAll(cs, f, k), fdel, kdel) == cs
  {
    if cs == [] {
      assert NonEmpty(Pieces("", fdel)) == [];
    } else {
      WrittenComesBack(cs[1..], fdel, kdel, f, k);
      var a := Written(cs[0], k);
      var b := WrittenAll(cs[1..], f, k);
      FirstPiece(a, f, b, fdel);
      CutWritten(cs[0], fdel, kdel, k);
      NoneEmpty(Pieces(b, fdel));
      assert ([a] + Pieces(b, fdel))[1..] == Pieces(b, fdel);
      assert NonEmpty(Pieces(a + [f] + b, fdel)) == [a] + NonEmpty(Pieces(b, fdel));
    }
  }

  /** A string of pairs written one behind the other, split in its memory: the entries say
      exactly these pairs. */
  method SplitWritten(str: array<char>, fdel: string, kdel: string, f: char, k: char, ghost cs: seq<Pair>)
    returns (len: int, kvs: array<Entry>)
    requires f in fdel && k in kdel && k !in fdel
    requires forall i :: 0 <= i < |cs| ==> Writable(cs[i], fdel, kdel)
    requires var w := WrittenAll(cs, f, k); NUL !in w && |w| < str.Length && str[..|w| + 1] == w + [NUL]
    modifies str
    ensures len == |cs| && kvs.Length == len + 1 && kvs[len] == Entry(None, None)
    ensures forall j :: 0 <= j < len ==> Says(str[..], kvs[j], cs[j])
  {
    hide CStr, Tokens, WrittenAll;
    WrittenHeld(str[..], WrittenAll(cs, f, k));
    WrittenComesBack(cs, fdel, kdel, f, k);
    len, kvs := Split(str, Some(fdel), Some(kdel), 0);
  }

  lemma WrittenHeld(m: seq<char>, w: string)
    requires NUL !in w && |w| < |m| && m[..|w| + 1] == w + [NUL]
    ensures NUL in m && CStr(m, 0) == w
  {
    assert m[|w|] == m[..|w| + 1][|w|] == NUL;
    forall q | 0 <= q < |w| ensures m[q] == w[q] {
      assert m[..|w| + 1][q] == w[q];
    }
    CStrIs(m, 0, |w|);
    assert m[0..|w|] == w;
  }
}
