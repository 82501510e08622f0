/** roar_wait: the request that concatenates events behind a four-byte header in the 80-byte
    message buffer, and the single event read from the reply. Sending is left out. */
module Wait {
  import opened CInt
  import opened Events
  import opened EventBlob
  import opened Util
  import opened Word64

  const MSGDATA := 80

  function WireAll(events: seq<Event>): seq<byte> {
    if events == [] then [] else Wire(events[0]) + WireAll(events[1..])
  }

  function ReceivedAll(events: seq<Event>): seq<Event> {
    if events == [] then [] else [Received(events[0])] + ReceivedAll(events[1..])
  }

  /** Reads events one after another until the bytes are used up. */
  function ParseAll(b: seq<byte>): Option<seq<Event>>
    decreases |b|
  {
    if b == [] then Some([])
    else
      match Parse(b)
      case Bad => None
      case Good(e, used) =>
        if used == 0 || used > |b| then None
        else match ParseAll(b[used..])
             case None => None
             case Some(more) => Some([e] + more)
  }

  ghost predicate AllWhole(events: seq<Event>) {
    forall i :: 0 <= i < |events| ==> Whole(events[i])
  }

  ghost predicate Sendable(events: seq<Event>) {
    forall i :: 0 <= i < |events| ==> Sound(events[i])
  }

  ghost predicate Short(events: seq<Event>) {
    forall i :: 0 <= i < |events| ==> |Arg(events[i])| <= MAX_ARG
  }

  /** A concatenation of wire forms decodes to the list of events. */
  lemma {:induction false} ParseAllWire(events: seq<Event>)
    requires AllWhole(events) && Short(events)
    ensures ParseAll(WireAll(events)) == Some(ReceivedAll(events))
    decreases |events|
  {
    hide Parse, Wire, Received;
    if events != [] {
      var rest := WireAll(events[1..]);
      ParseWire(events[0], rest);
      assert (Wire(events[0]) + rest)[|Wire(events[0])|..] == rest;
      ParseAllWire(events[1..]);
    }
  }

  lemma {:induction false} WireAllSnoc(events: seq<Event>, i: nat)
    requires i < |events|
    ensures WireAll(events[..i + 1]) == WireAll(events[..i]) + Wire(events[i])
    decreases i
  {
    hide Wire;
    if i > 0 {
      WireAllSnoc(events[1..], i - 1);
      assert events[1..][..i] == events[..i + 1][1..] && events[1..][..i - 1] == events[..i][1..];
    } else {
      assert WireAll(events[..1][1..]) == [];
    }
  }

  lemma {:induction false} WireAllPrefix(events: seq<Event>, i: nat)
    requires i <= |events|
    ensures |WireAll(events[..i])| <= |WireAll(events)|
    decreases |events| - i
  {
    hide Wire;
    if i < |events| {
      WireAllPrefix(events, i + 1);
      WireAllSnoc(events, i);
    } else {
      assert events[..i] == events;
    }
  }

  /** What building a request of the events from number i on with this much room left does. */
  function Building(events: seq<Event>, i: nat, room: nat): Outcome
    requires i <= |events| && room <= MSGDATA
    decreases |events| - i
  {
    if i == |events| then Written(MSGDATA - room)
    else
      match Writing(events[i], room)
      case Written(n) => if n <= room then Building(events, i + 1, room - n) else Refused
      case Refused => Refused
      case Faulty => Faulty
  }

  lemma WritingFits(e: Event, room: nat)
    ensures Writing(e, room).Written? ==> Writing(e, room).len <= room
  {
  }

  /** If every event can be sent, the request is built exactly if it fits the buffer. */
  lemma {:induction false} SendableIsBuilt(events: seq<Event>, i: nat, room: nat)
    requires Sendable(events) && i <= |events| && room <= MSGDATA
    ensures var n := |WireAll(events[i..])|;
            Building(events, i, room) == if n <= room then Written(MSGDATA - room + n) else Refused
    decreases |events| - i
  {
    hide Wire, Writing;
    if i < |events| {
      SoundWriting(events[i], room);
      assert events[i..][1..] == events[i + 1..];
      ArgWithinWire(events[i]);
      if |Wire(events[i])| <= room {
        SendableIsBuilt(events, i + 1, room - |Wire(events[i])|);
      }
    }
  }

  /** The request: no events are a success, else what Building says; a built request is the
      header and the wire forms one behind the other. */
  method BuildRequest(events: seq<Event>, data: array<byte>) returns (r: Outcome)
    requires data.Length == MSGDATA
    modifies data
    ensures events == [] ==> r == Written(0)
    ensures events != [] ==> r == Building(events, 0, MSGDATA - 4)
    ensures events != [] && r.Written? ==>
              r.len == 4 + |WireAll(events)| <= MSGDATA && data[..r.len] == [0, 0, 0, 0] + WireAll(events)
  {
    hide Wire, Writing, Spill;
    if |events| == 0 {
      return Written(0);
    }
    data[0], data[1], data[2], data[3] := 0, 0, 0, 0;
    var vp, lenLeft, lenHave := 4, MSGDATA - 4, 4;
    assert data[..4] == [0, 0, 0, 0] + WireAll(events[..0]);
    for i := 0 to |events|
      invariant vp == lenHave == MSGDATA - lenLeft && 4 <= vp <= MSGDATA
      invariant vp == 4 + |WireAll(events[..i])| && data[..vp] == [0, 0, 0, 0] + WireAll(events[..i])
      invariant Building(events, 0, MSGDATA - 4) == Building(events, i, lenLeft)
    {
      ghost var was := data[..vp];
      WireAllSnoc(events, i);
      WritingFits(events[i], lenLeft);
      var tmp := ToBlob(events[i], data, vp, lenLeft);
      if !tmp.Written? {
        return tmp;
      }
      assert data[..vp + tmp.len] == was + Wire(events[i]);
      lenLeft := lenLeft - tmp.len;
      lenHave := lenHave + tmp.len;
      vp := vp + tmp.len;
    }
    assert events[..|events|] == events;
    return Written(lenHave);
  }

  lemma ArgWithinWire(e: Event)
    ensures |Arg(e)| <= |Wire(e)|
  {
  }

  /** Every event of a built request was written whole. */
  lemma {:induction false} BuiltAreWhole(events: seq<Event>, i: nat, room: nat)
    requires i <= |events| && room <= MSGDATA && Building(events, i, room).Written?
    ensures forall k :: i <= k < |events| ==> Whole(events[k]) && |Arg(events[k])| <= MAX_ARG
    decreases |events| - i
  {
    hide Writing, Whole, Arg;
    if i < |events| {
      WrittenIsWhole(events[i], room);
      BuiltAreWhole(events, i + 1, room - Writing(events[i], room).len);
    }
  }

  /** What the receiver of a built request reads behind the header is the list of events; a
      request of events that can be sent is built exactly if it fits. */
  method RequestRoundTrip(events: seq<Event>, data: array<byte>) returns (r: Outcome)
    requires data.Length == MSGDATA && events != []
    modifies data
    ensures r == Building(events, 0, MSGDATA - 4)
    ensures Sendable(events) ==>
              r == if 4 + |WireAll(events)| <= MSGDATA then Written(4 + |WireAll(events)|) else Refused
    ensures r.Written? ==> 4 <= r.len <= MSGDATA && ParseAll(data[4..r.len]) == Some(ReceivedAll(events))
  {
    hide Wire, Parse, Whole, Arg;
    r := BuildRequest(events, data);
    if Sendable(events) {
      SendableIsBuilt(events, 0, MSGDATA - 4);
      assert events[0..] == events;
    }
    if r.Written? {
      assert data[4..r.len] == data[..r.len][4..] == WireAll(events);
      BuiltAreWhole(events, 0, MSGDATA - 4);
      ParseAllWire(events);
    }
  }

  /** The event in a reply. The length test lets 2 and 3 through: the length left then wraps
      to almost 2^64, which no event's length is, so they fail all the same. */
  method ParseReply(data: array<byte>, datalen: int) returns (triggered: Option<Event>)
    requires data.Length == MSGDATA && datalen <= MSGDATA
    ensures datalen < 4 ==> triggered == None
    ensures datalen >= 4 ==>
      triggered == match Parse(data[4..datalen])
                   case Good(e, used) =>
                     if data[..4] == [0, 0, 0, 0] && used == datalen - 4 then Some(e.(arg2 := None, arg2Len := 0))
                     else None
                   case Bad => None
  {
    hide ParseAs;
    if datalen < 2 {
      return None;
    }
    if data[0] != 0 || data[1] != 0 || data[2] != 0 || data[3] != 0 {
      return None;
    }
    assert data[..4] == [0, 0, 0, 0];
    var lenHave: word := (datalen - 4) % MODULUS;
    if datalen >= 4 {
      assert Reachable(data[..], 4, lenHave) == data[4..datalen];
    }
    var p := FromBlob(data, 4, lenHave);
    if p.Bad? {
      return None;
    }
    if lenHave != p.used {
      return None;
    }
    triggered := Some(p.event.(arg2 := None, arg2Len := 0));
  }

  /** A reply carrying one event is read as that event without its data, and under any other
      data length it is refused. */
  method ReplyIsEvent(e: Event, data: array<byte>, datalen: int) returns (triggered: Option<Event>)
    requires data.Length == MSGDATA && datalen <= MSGDATA && Whole(e) && |Arg(e)| <= MAX_ARG
    requires 4 + |Wire(e)| <= MSGDATA && data[..4 + |Wire(e)|] == [0, 0, 0, 0] + Wire(e)
    ensures triggered == if datalen == 4 + |Wire(e)| then Some(Received(e).(arg2 := None, arg2Len := 0)) else None
  {
    hide Parse, Wire, Received;
    triggered := ParseReply(data, datalen);
    var n := 4 + |Wire(e)|;
    assert data[4..n] == data[..n][4..] == Wire(e);
    assert data[..4] == data[..n][..4] == [0, 0, 0, 0];
    if datalen >= n {
      var rest := data[n..datalen];
      assert data[4..datalen] == Wire(e) + rest;
      ParseWire(e, rest);
    } else if datalen >= 4 {
      assert data[4..datalen] == Wire(e)[..datalen - 4];
      ParsePrefix(e, datalen - 4);
    }
  }
}
