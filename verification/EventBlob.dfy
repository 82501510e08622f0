/** The wire form of an event: roar_event_to_blob, roar_event_from_blob, and the message
    roar_wait builds from several events. Words are big endian. */
module EventBlob {
  import opened CInt
  import opened Digits
  import opened Events
  import opened NetWords
  import opened Util

  // ---------- the two directions ----------

  const MAX_ARG := 32768

  /** The header flags: bit 0 says data follows, bit 1 that the event came through a proxy. */
  function Flags(e: Event): uint32 {
    (if e.nettrans then 1 else 0) + (if e.proxyEvent then 2 else 0)
  }

  /** Flags, event and, for a proxy event, the original event. */
  function Head(e: Event): (b: seq<byte>)
    ensures |b| == if e.proxyEvent then 12 else 8
  {
    Be32(Flags(e)) + Be32(e.event) + if e.proxyEvent then Be32(e.eventProxy) else []
  }

  /** The data bytes of an event. */
  function Data(e: Event): seq<byte> {
    if e.arg2.Some? && 0 <= e.arg2Len <= |e.arg2.value| then e.arg2.value[..e.arg2Len] else []
  }

  /** Those that are sent. */
  function Arg(e: Event): seq<byte> {
    if e.nettrans then Data(e) else []
  }

  /** Emitter, target and its type, then the data length and, if data is sent, the arguments. */
  function Body(e: Event): (b: seq<byte>)
    ensures |b| == if e.nettrans then 12 else 8
  {
    Be16(e.emitter) + Be16(e.target) + Be16(e.targetType)
    + if e.nettrans then Be16(e.arg2Len) + Be16(e.arg0) + Be16(e.arg1) else Be16(0)
  }

  function Wire(e: Event): (b: seq<byte>)
    ensures |b| == (if e.proxyEvent then 12 else 8) + (if e.nettrans then 12 + |Arg(e)| else 8)
  {
    Head(e) + Body(e) + Arg(e)
  }

  /** A 16-bit field as it is read back: 65535 stands for -1. */
  function Field(u: int): int32
    requires 0 <= u < 0x1_0000
  {
    if u == 0xffff then -1 else u
  }

  // ---------- what writing does ----------

  /** Written with this length, refused with -1, or Faulty: a copy from NULL, of a negative
      length, of more than there is, or past the room given. */
  datatype Outcome = Refused | Written(len: nat) | Faulty

  function Needed(e: Event): nat {
    16 + (if e.proxyEvent then 4 else 0) + (if e.nettrans then 4 + (if e.arg2Len > 0 then e.arg2Len else 0) else 0)
  }

  /** The final copy of arg2_len bytes is sound: without the data flag it goes behind the length
      computed, so it needs that much more room. */
  predicate CopySound(e: Event, room: nat) {
    e.arg2Len == 0 ||
    (e.arg2.Some? && 0 < e.arg2Len <= |e.arg2.value| && (e.nettrans || Needed(e) + e.arg2Len <= room))
  }

  function Writing(e: Event, room: nat): Outcome {
    if room == 0 || (e.nettrans && e.arg2Len > MAX_ARG) || room < Needed(e) then Refused
    else if CopySound(e, room) then Written(Needed(e))
    else Faulty
  }

  /** The bytes the final copy leaves behind the wire form. */
  function Spill(e: Event): seq<byte> {
    if e.nettrans then [] else Data(e)
  }

  // ---------- what reading does ----------

  datatype Parsed = Bad | Good(event: Event, used: nat)

  /** What roar_event_from_blob makes of memory b, being told that it holds len bytes. The
      claimed data length is stored with or without the data flag, but only with it points
      arg2 anywhere; nothing is read there. */
  function ParseAs(b: seq<byte>, len: nat): (p: Parsed)
    requires |b| >= 24 || len <= |b|
    ensures p.Good? ==> p.used <= 24 + 0xffff && p.used <= len
  {
    if len < 16 then Bad
    else
      var flags := Word(b, 0);
      var proxy := (flags / 2) % 2 == 1;
      var data := flags % 2 == 1;
      var o := if proxy then 12 else 8;
      var header := o + 8 + if data then 4 else 0;
      if len < header then Bad
      else
        var argLen := Half(b, o + 6);
        if len < header + argLen || flags >= 4 then Bad
        else
          Good(Event(data, proxy, Word(b, 4), if proxy then Word(b, 8) else 0,
                     Field(Half(b, o)), Field(Half(b, o + 2)), Field(Half(b, o + 4)),
                     if data then Field(Half(b, o + 8)) else -1,
                     if data then Field(Half(b, o + 10)) else -1,
                     if data then Some(Reachable(b, header, argLen)) else None,
                     argLen),
               header + argLen)
  }

  /** The n bytes from i on, as far as there are any. */
  function Reachable(b: seq<byte>, i: nat, n: nat): seq<byte>
    requires i <= |b|
  {
    if i + n <= |b| then b[i..i + n] else b[i..]
  }

  /** Reading exactly the bytes given. */
  function Parse(b: seq<byte>): Parsed {
    ParseAs(b, |b|)
  }

  /** What of an event survives the wire. */
  function Received(e: Event): Event {
    Event(e.nettrans, e.proxyEvent, e.event, if e.proxyEvent then e.eventProxy else 0,
          Field(e.emitter % 0x1_0000), Field(e.target % 0x1_0000), Field(e.targetType % 0x1_0000),
          if e.nettrans then Field(e.arg0 % 0x1_0000) else -1,
          if e.nettrans then Field(e.arg1 % 0x1_0000) else -1,
          if e.nettrans then Some(Arg(e)) else None,
          |Arg(e)|)
  }

  predicate FieldFits(x: int) {
    -1 <= x <= 65534
  }

  /** The data length of an event that sends data is that of its data. */
  predicate Whole(e: Event) {
    e.nettrans ==> e.arg2Len == |Arg(e)|
  }

  /** The events that survive unchanged. */
  predicate Transparent(e: Event) {
    && FieldFits(e.emitter) && FieldFits(e.target) && FieldFits(e.targetType)
    && (e.proxyEvent || e.eventProxy == 0)
    && (if e.nettrans then FieldFits(e.arg0) && FieldFits(e.arg1) && e.arg2Len == |Arg(e)| <= MAX_ARG
        else e.arg0 == e.arg1 == -1 && e.arg2Len == 0)
  }

  /** Two events say the same: only where the data lies, or what else lies there, may differ. */
  predicate Same(e: Event, f: Event) {
    e.(arg2 := None) == f.(arg2 := None) && Arg(e) == Arg(f)
  }

  /** Exactly the events with 16-bit fields from -1 to 65534, whole data of at most 32768 bytes,
      and nothing set that is not sent, are written, given the room, and received as they were. */
  lemma ReceivedIsSent(e: Event, room: nat)
    ensures Writing(e, room).Written? && Same(Received(e), e) <==> Transparent(e) && |Wire(e)| <= room
  {
    var r := Received(e);
    assert Arg(r) == Arg(e) by {
      if e.nettrans {
        assert Arg(e)[..|Arg(e)|] == Arg(e);
      }
    }
  }

  /** Whatever is written was whole and not too long. */
  lemma WrittenIsWhole(e: Event, room: nat)
    requires Writing(e, room).Written?
    ensures Whole(e) && |Arg(e)| <= MAX_ARG && Writing(e, room) == Written(|Wire(e)|)
  {
  }

  /** An event can be sent: its data length is that of its data. */
  predicate Sound(e: Event) {
    Whole(e) && (e.nettrans || e.arg2Len == 0)
  }

  /** With any room, an event is written soundly or refused if it is sound, and then Needed is
      the length of its wire form. */
  lemma SoundWriting(e: Event, room: nat)
    requires Sound(e)
    ensures Needed(e) == |Wire(e)|
    ensures Writing(e, room) == if |Arg(e)| <= MAX_ARG && |Wire(e)| <= room then Written(|Wire(e)|) else Refused
  {
  }

  /** The fixed fields of a wire form, wherever it is followed by other bytes. */
  lemma WireFields(e: Event, rest: seq<byte>)
    ensures var b := Wire(e) + rest;
            var o := if e.proxyEvent then 12 else 8;
            && Word(b, 0) == Flags(e) && Word(b, 4) == e.event
            && (e.proxyEvent ==> Word(b, 8) == e.eventProxy)
            && Half(b, o) == e.emitter % 0x1_0000
            && Half(b, o + 2) == e.target % 0x1_0000
            && Half(b, o + 4) == e.targetType % 0x1_0000
            && Half(b, o + 6) == (if e.nettrans then e.arg2Len % 0x1_0000 else 0)
            && (e.nettrans ==> Half(b, o + 8) == e.arg0 % 0x1_0000 && Half(b, o + 10) == e.arg1 % 0x1_0000
                               && b[o + 12..o + 12 + |Arg(e)|] == Arg(e))
  {
    hide Be16, Be32, Half, Word, Flags;
    var b := Wire(e) + rest;
    var o := if e.proxyEvent then 12 else 8;
    assert b[0..4] == Be32(Flags(e)) && b[4..8] == Be32(e.event);
    WordOfBe32(b, 0, Flags(e));
    WordOfBe32(b, 4, e.event);
    if e.proxyEvent {
      assert b[8..12] == Be32(e.eventProxy);
      WordOfBe32(b, 8, e.eventProxy);
    }
    assert b[o..o + 2] == Be16(e.emitter) && b[o + 2..o + 4] == Be16(e.target) && b[o + 4..o + 6] == Be16(e.targetType);
    HalfOfBe16(b, o, e.emitter);
    HalfOfBe16(b, o + 2, e.target);
    HalfOfBe16(b, o + 4, e.targetType);
    if e.nettrans {
      assert b[o + 6..o + 8] == Be16(e.arg2Len) && b[o + 8..o + 10] == Be16(e.arg0) && b[o + 10..o + 12] == Be16(e.arg1);
      HalfOfBe16(b, o + 6, e.arg2Len);
      HalfOfBe16(b, o + 8, e.arg0);
      HalfOfBe16(b, o + 10, e.arg1);
    } else {
      assert b[o + 6..o + 8] == Be16(0);
      HalfOfBe16(b, o + 6, 0);
    }
  }

  /** The wire form byte by byte, numbers with the most significant byte first: flags with 1 for
      data and 2 for a proxy event, the event, the original event of a proxy event, emitter,
      target, its type, the data length, and with data both arguments and the data. */
  lemma WireByBytes(e: Event)
    ensures var b := Wire(e);
            var o := if e.proxyEvent then 12 else 8;
            && |b| >= o + (if e.nettrans then 12 else 8)
            && Big(b[0..4]) == (if e.nettrans then 1 else 0) + (if e.proxyEvent then 2 else 0)
            && Big(b[4..8]) == e.event && (e.proxyEvent ==> Big(b[8..12]) == e.eventProxy)
            && Big(b[o..o + 2]) == e.emitter % 0x1_0000
            && Big(b[o + 2..o + 4]) == e.target % 0x1_0000
            && Big(b[o + 4..o + 6]) == e.targetType % 0x1_0000
            && Big(b[o + 6..o + 8]) == (if e.nettrans then e.arg2Len % 0x1_0000 else 0)
            && (e.nettrans ==> Big(b[o + 8..o + 10]) == e.arg0 % 0x1_0000
                               && Big(b[o + 10..o + 12]) == e.arg1 % 0x1_0000)
            && b[o + (if e.nettrans then 12 else 8)..] == Arg(e)
  {
    var b := Wire(e);
    var o := if e.proxyEvent then 12 else 8;
    assert b + [] == b;
    WireFields(e, []);
    assert b[|b| - |Arg(e)|..] == Arg(e);
    hide Big, Half, Word, Wire;
    WordIsBig(b, 0);
    WordIsBig(b, 4);
    HalfIsBig(b, o);
    HalfIsBig(b, o + 2);
    HalfIsBig(b, o + 4);
    HalfIsBig(b, o + 6);
    if e.proxyEvent {
      WordIsBig(b, 8);
    }
    if e.nettrans {
      HalfIsBig(b, o + 8);
      HalfIsBig(b, o + 10);
    }
  }

  /** The wire form is self-delimiting: whatever follows, reading returns the event and
      consumes exactly its length. */
  lemma ParseWire(e: Event, rest: seq<byte>)
    requires Whole(e) && |Arg(e)| <= MAX_ARG
    ensures Parse(Wire(e) + rest) == Good(Received(e), |Wire(e)|)
  {
    hide Half, Word, Wire;
    WireFields(e, rest);
  }

  /** No proper prefix of a wire form is accepted. */
  lemma ParsePrefix(e: Event, k: nat)
    requires Whole(e) && |Arg(e)| <= MAX_ARG && k < |Wire(e)|
    ensures Parse(Wire(e)[..k]) == Bad
  {
    hide Half, Word, Wire;
    var w := Wire(e);
    WireFields(e, []);
    assert w + [] == w;
    SameFields(w, k, 0);
    SameFields(w, k, if e.proxyEvent then 18 else 14);
  }

  lemma FieldBack(u: int)
    requires 0 <= u < 0x1_0000
    ensures Field(u) % 0x1_0000 == u
  {
  }

  /** What writing an accepted event again does, given room for what was read: the same bytes,
      or a refusal if there is more data than may be sent, or, if the bytes claimed data without
      sending any, a copy from NULL. */
  lemma WireParsed(b: seq<byte>, room: nat)
    requires Parse(b).Good? && Parse(b).used <= room
    ensures var p := Parse(b);
            Writing(p.event, room) == if p.event.nettrans then
                                        if p.event.arg2Len <= MAX_ARG then Written(p.used) else Refused
                                      else if p.event.arg2Len == 0 then Written(p.used)
                                      else Faulty
    ensures var p := Parse(b);
            p.used <= |b| && (Wire(p.event) == b[..p.used] <==> p.event.nettrans || p.event.arg2Len == 0)
  {
    hide Be16, Half, Word, Field, Head;
    var p := Parse(b);
    var e := p.event;
    var o := if e.proxyEvent then 12 else 8;
    HeadBack(b, e);
    BodyBack(b, o, e.emitter, e.target, e.targetType);
    if e.nettrans {
      HalfBack(b, o + 6, e.arg2Len);
      assert Arg(e) == b[o + 12..p.used];
      FieldBack(Half(b, o + 8));
      FieldBack(Half(b, o + 10));
      HalfBack(b, o + 8, e.arg0);
      HalfBack(b, o + 10, e.arg1);
      Joined(b, o + 6, o + 8, o + 10);
      Joined(b, o + 6, o + 10, o + 12);
      Joined(b, o, o + 6, o + 12);
      Joined(b, 0, o, o + 12);
      Joined(b, 0, o + 12, p.used);
    } else if e.arg2Len == 0 {
      HalfBack(b, o + 6, 0);
      Joined(b, o, o + 6, o + 8);
      Joined(b, 0, o, o + 8);
    }
  }

  lemma Joined(b: seq<byte>, i: nat, j: nat, k: nat)
    requires i <= j <= k <= |b|
    ensures b[i..j] + b[j..k] == b[i..k] && b[0..k] == b[..k]
  {
  }

  lemma HeadBack(b: seq<byte>, e: Event)
    requires |Head(e)| <= |b| && Word(b, 0) == Flags(e) && Word(b, 4) == e.event
    requires e.proxyEvent ==> Word(b, 8) == e.eventProxy
    ensures Head(e) == b[..|Head(e)|]
  {
    hide Be32, Word, Flags;
    WordBack(b, 0);
    WordBack(b, 4);
    if e.proxyEvent {
      WordBack(b, 8);
      assert b[..12] == b[0..4] + b[4..8] + b[8..12];
    } else {
      assert b[..8] == b[0..4] + b[4..8];
    }
  }

  lemma BodyBack(b: seq<byte>, o: nat, emitter: int, target: int, targetType: int)
    requires o + 6 <= |b|
    requires emitter == Field(Half(b, o)) && target == Field(Half(b, o + 2)) && targetType == Field(Half(b, o + 4))
    ensures Be16(emitter) + Be16(target) + Be16(targetType) == b[o..o + 6]
  {
    hide Be16, Half, Field;
    FieldBack(Half(b, o));
    FieldBack(Half(b, o + 2));
    FieldBack(Half(b, o + 4));
    HalfBack(b, o, emitter);
    HalfBack(b, o + 2, target);
    HalfBack(b, o + 4, targetType);
  }

  // ---------- the methods ----------

  /** roar_event_to_blob writing at an offset with the given room. */
  method ToBlob(e: Event, blob: array<byte>, at: nat, room: nat) returns (r: Outcome)
    requires at + room <= blob.Length
    modifies blob
    ensures r == Writing(e, room)
    ensures r.Written? ==> r.len == |Wire(e)| && blob[..at + r.len] == old(blob[..at]) + Wire(e)
    ensures r.Written? ==> at + r.len + |Spill(e)| <= blob.Length
                           && blob[at + r.len..at + r.len + |Spill(e)|] == Spill(e)
    ensures r.Written? ==> forall k :: at + r.len + |Spill(e)| <= k < blob.Length ==> blob[k] == old(blob[k])
    ensures r.Refused? ==> blob[..] == old(blob[..])
  {
    hide Head, Body, Data;
    var neededLen := 16;
    var dataOffsetNeg := 0;
    if room == 0 {
      return Refused;
    }
    if e.proxyEvent {
      neededLen := neededLen + 4;
    }
    if e.nettrans {
      if e.arg2Len > MAX_ARG {
        return Refused;
      }
      neededLen := neededLen + 4;
      if e.arg2Len > 0 {
        neededLen := neededLen + e.arg2Len;
        dataOffsetNeg := e.arg2Len;
      }
    }
    if room < neededLen {
      return Refused;
    }
    PutFields(e, blob, at);
    var copied := CopyArg(e, blob, at + neededLen - dataOffsetNeg, at + room);
    return if copied then Written(neededLen) else Faulty;
  }

  /** memcpy of arg2_len bytes, if that is sound and stays before end. */
  method CopyArg(e: Event, blob: array<byte>, to: nat, end: nat) returns (ok: bool)
    requires to <= end <= blob.Length
    modifies blob
    ensures ok <==> e.arg2Len == 0
                    || (e.arg2.Some? && 0 < e.arg2Len <= |e.arg2.value| && to + e.arg2Len <= end)
    ensures ok ==> |Data(e)| == e.arg2Len && blob[..to + e.arg2Len] == old(blob[..to]) + Data(e)
    ensures ok ==> forall k :: to + e.arg2Len <= k < blob.Length ==> blob[k] == old(blob[k])
  {
    if e.arg2Len == 0 {
      return true;
    }
    if e.arg2.None? || !(0 < e.arg2Len <= |e.arg2.value|) || to + e.arg2Len > end {
      return false;
    }
    PutBytes(blob, to, e.arg2.value[..e.arg2Len]);
    return true;
  }

  /** Everything but the data. */
  method PutFields(e: Event, blob: array<byte>, at: nat)
    requires at + |Head(e)| + |Body(e)| <= blob.Length
    modifies blob
    ensures blob[..at + |Head(e)| + |Body(e)|] == old(blob[..at]) + (Head(e) + Body(e))
    ensures forall k :: at + |Head(e)| + |Body(e)| <= k < blob.Length ==> blob[k] == old(blob[k])
  {
    hide Head, Body;
    var u16 := at + 8;
    PutHead(e, blob, at);
    if e.proxyEvent {
      u16 := u16 + 4;
    }
    PutBody(e, blob, u16);
    assert (old(blob[..at]) + Head(e)) + Body(e) == old(blob[..at]) + (Head(e) + Body(e));
  }

  method PutHead(e: Event, blob: array<byte>, at: nat)
    requires at + |Head(e)| <= blob.Length
    modifies blob
    ensures blob[..at + |Head(e)|] == old(blob[..at]) + Head(e)
    ensures forall k :: at + |Head(e)| <= k < blob.Length ==> blob[k] == old(blob[k])
  {
    hide Be32;
    PutWord(blob, at, Flags(e));
    PutWord(blob, at + 4, e.event);
    if e.proxyEvent {
      PutWord(blob, at + 8, e.eventProxy);
    }
  }

  method PutBody(e: Event, blob: array<byte>, u16: nat)
    requires u16 + |Body(e)| <= blob.Length
    modifies blob
    ensures blob[..u16 + |Body(e)|] == old(blob[..u16]) + Body(e)
    ensures forall k :: u16 + |Body(e)| <= k < blob.Length ==> blob[k] == old(blob[k])
  {
    hide Be16;
    PutHalf(blob, u16, e.emitter);
    PutHalf(blob, u16 + 2, e.target);
    PutHalf(blob, u16 + 4, e.targetType);
    if e.nettrans {
      PutHalf(blob, u16 + 6, e.arg2Len);
      PutHalf(blob, u16 + 8, e.arg0);
      PutHalf(blob, u16 + 10, e.arg1);
    } else {
      PutHalf(blob, u16 + 6, 0);
    }
  }

  /** roar_event_from_blob at an offset, being told of len bytes there. */
  method FromBlob(blob: array<byte>, at: nat, len: nat) returns (r: Parsed)
    requires at + len <= blob.Length || at + 24 <= blob.Length
    ensures r == ParseAs(Reachable(blob[..], at, len), len)
  {
    hide Half, Word;
    var b := Reachable(blob[..], at, len);
    var neededLen := 16;
    var u16 := 8;
    if len < neededLen {
      return Bad;
    }
    var flags := Word(b, 0);
    if (flags / 2) % 2 == 1 {
      neededLen := neededLen + 4;
      u16 := u16 + 4;
    }
    if flags % 2 == 1 {
      neededLen := neededLen + 4;
    }
    if len < neededLen {
      return Bad;
    }
    var argLen := Half(b, u16 + 6);
    neededLen := neededLen + argLen;
    if len < neededLen {
      return Bad;
    }
    var proxy, data := false, false;
    if (flags / 2) % 2 == 1 {
      flags := flags - 2;
      proxy := true;
    }
    if flags % 2 == 1 {
      flags := flags - 1;
      data := true;
    }
    if flags != 0 {
      return Bad;
    }
    var emitter, target, targetType := Half(b, u16), Half(b, u16 + 2), Half(b, u16 + 4);
    if emitter == 0xffff { emitter := -1; }
    if target == 0xffff { target := -1; }
    if targetType == 0xffff { targetType := -1; }
    var arg0, arg1 := -1, -1;
    var arg2: Option<seq<byte>> := None;
    if data {
      arg0, arg1 := Half(b, u16 + 8), Half(b, u16 + 10);
      if arg0 == 0xffff { arg0 := -1; }
      if arg1 == 0xffff { arg1 := -1; }
      arg2 := Some(Reachable(b, neededLen - argLen, argLen));
    }
    r := Good(Event(data, proxy, Word(b, 4), if proxy then Word(b, 8) else 0,
                    emitter, target, targetType, arg0, arg1, arg2, argLen), neededLen);
  }

  /** Writing an event and reading it back: what is written comes back as Received says, and
      exactly the transparent events that fit the room come back the same. */
  method WriteAndRead(e: Event, blob: array<byte>, at: nat, room: nat) returns (r: Parsed)
    requires at + room <= blob.Length
    modifies blob
    ensures r == if Writing(e, room).Written? then Good(Received(e), |Wire(e)|) else Bad
    ensures r.Good? && Same(r.event, e) <==> Transparent(e) && |Wire(e)| <= room
  {
    hide Wire, ParseAs, Writing, Received, Spill, Transparent;
    ReceivedIsSent(e, room);
    var w := ToBlob(e, blob, at, room);
    if !w.Written? {
      return Bad;
    }
    WrittenIsWhole(e, room);
    assert Reachable(blob[..], at, w.len) == blob[..at + w.len][at..] == Wire(e);
    assert Wire(e) + [] == Wire(e);
    ParseWire(e, []);
    r := FromBlob(blob, at, w.len);
  }

  /** Reading an event and writing it again over the bytes it was read from. */
  method ReadAndWrite(blob: array<byte>, at: nat, len: nat) returns (r: Outcome)
    requires at + len <= blob.Length
    modifies blob
    ensures var p := Parse(old(blob[at..at + len]));
            r == match p
                 case Bad => Refused
                 case Good(e, used) =>
                   if e.nettrans then if e.arg2Len <= MAX_ARG then Written(used) else Refused
                   else if e.arg2Len == 0 then Written(used)
                   else Faulty
    ensures r.Written? ==> blob[..] == old(blob[..])
  {
    hide Wire, ParseAs, Writing;
    ghost var was, b := blob[..], blob[at..at + len];
    assert Reachable(blob[..], at, len) == b;
    var p := FromBlob(blob, at, len);
    if p.Bad? {
      return Refused;
    }
    WireParsed(b, len);
    r := ToBlob(p.event, blob, at, len);
    if r.Written? {
      NoSpill(b);
      Restored(was, blob[..], at, b[..p.used]);
    }
  }

  lemma Restored(was: seq<byte>, now: seq<byte>, at: nat, w: seq<byte>)
    requires at + |w| <= |was| == |now| && was[at..at + |w|] == w && now[..at + |w|] == was[..at] + w
    requires forall k :: at + |w| <= k < |was| ==> now[k] == was[k]
    ensures now == was
  {
    assert forall k :: 0 <= k < at + |w| ==> now[k] == now[..at + |w|][k];
    assert forall k :: at <= k < at + |w| ==> was[k] == was[at..at + |w|][k - at];
  }

  lemma NoSpill(b: seq<byte>)
    requires Parse(b).Good?
    ensures Spill(Parse(b).event) == []
  {
  }
}
