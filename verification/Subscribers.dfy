/** What the notify core delivers, as functions of the list of live subscribers in
    subscription order. */
module Subscribers {
  import opened CInt
  import opened Events
  import Word64

  const SPECIAL: uint32 := 0xffff_ffff
  const ANY_EVENT: uint32 := 0x1_0000
  /** The header gives "any client", "any stream", "any source" and "any sample" event one value. */
  const ANY_GROUP_EVENT: uint32 := 0x1_0100

  class Subscriber {
    const event: uint32
    const emitter: int32
    const target: int32
    const targetType: int32
    const hash: nat
    var next: Subscriber?
    ghost var freed: bool

    constructor (e: Event, hash: nat)
      ensures event == e.event && emitter == e.emitter && target == e.target && targetType == e.targetType
      ensures this.hash == hash && next == null && !freed
    {
      event, emitter, target, targetType := e.event, e.emitter, e.target, e.targetType;
      this.hash, next, freed := hash, null, false;
    }

    predicate Matches(e: Event) {
      Wants(event, emitter, target, targetType, e)
    }
  }

  /** A subscription with these fields is called for the event. */
  predicate Wants(event: uint32, emitter: int32, target: int32, targetType: int32, e: Event) {
    && (event == SPECIAL || event == e.event)
    && (emitter == -1 || emitter == e.emitter)
    && (target == -1 || target == e.target)
    && (targetType == -1 || targetType == e.targetType)
  }

  datatype Delivery = Delivery(who: Subscriber, what: Event)

  /** _hash_event: for a power of two the mask listc - 1 is the remainder by listc. */
  function Hash(event: uint32, listc: nat): (h: nat)
    requires listc > 0
    ensures h < listc
  {
    var h := Word64.XorBits(Word64.XorBits(Word64.XorBits(event, event / 0x100), event / 0x1_0000), event / 0x100_0000);
    h % listc
  }

  /** Bit k of the hash is the parity of the bits k of the event's four bytes. */
  lemma HashIsBytewise(event: uint32, n: nat, k: nat)
    requires k < n
    ensures Word64.NthBit(Hash(event, Word64.Pow2(n)), k)
            <==> (Word64.NthBit(event, k) != Word64.NthBit(event, k + 8))
                 != (Word64.NthBit(event, k + 16) != Word64.NthBit(event, k + 24))
  {
    var b, c, d := event / 0x100, event / 0x1_0000, event / 0x100_0000;
    var x := Word64.XorBits(event, b);
    var y := Word64.XorBits(x, c);
    var z := Word64.XorBits(y, d);
    assert Hash(event, Word64.Pow2(n)) == z % Word64.Pow2(n);
    hide Word64.NthBit, Word64.XorBits, Word64.Pow2, Hash;
    Word64.LowBit(z, n, k);
    Word64.XorIsBitwise(event, b, k);
    Word64.XorIsBitwise(x, c, k);
    Word64.XorIsBitwise(y, d, k);
    BytesOf(event, k);
  }

  lemma BytesOf(event: uint32, k: nat)
    ensures Word64.NthBit(event / 0x100, k) == Word64.NthBit(event, k + 8)
    ensures Word64.NthBit(event / 0x1_0000, k) == Word64.NthBit(event, k + 16)
    ensures Word64.NthBit(event / 0x100_0000, k) == Word64.NthBit(event, k + 24)
  {
    hide Word64.NthBit;
    var b, c := event / 0x100, event / 0x1_0000;
    assert b / 0x100 == c && c / 0x100 == event / 0x100_0000;
    Word64.ShiftedBit(event, k);
    Word64.ShiftedBit(b, k);
    Word64.ShiftedBit(event, k + 8);
    Word64.ShiftedBit(c, k);
    Word64.ShiftedBit(b, k + 8);
    Word64.ShiftedBit(event, k + 16);
  }

  /** The subscribers of one bucket, in subscription order. */
  function Bucket(order: seq<Subscriber>, h: nat): (b: seq<Subscriber>)
    ensures forall i :: 0 <= i < |b| ==> b[i] in order && b[i].hash == h
  {
    if order == [] then []
    else (if order[0].hash == h then [order[0]] else []) + Bucket(order[1..], h)
  }

  /** The calls made for an event to those of a list that match. */
  function Called(order: seq<Subscriber>, e: Event): seq<Delivery> {
    if order == [] then []
    else (if order[0].Matches(e) then [Delivery(order[0], e)] else []) + Called(order[1..], e)
  }

  function Direct(order: seq<Subscriber>, listc: nat, e: Event): seq<Delivery>
    requires listc > 0
  {
    Called(Bucket(order, Hash(e.event, listc)), e)
  }

  function Flagged(e: Event, event: uint32): Event {
    e.(event := event, eventProxy := e.event, proxyEvent := true)
  }

  /** Object events of clients, streams, sources and samples. */
  predicate InGroup(event: uint32, group: nat) {
    0x2_0000 + 0x100 * group <= event <= 0x2_0000 + 0x100 * group + 0xff
  }

  function GroupLog(order: seq<Subscriber>, listc: nat, e: Event, group: nat): seq<Delivery>
    requires listc > 0
  {
    if InGroup(e.event, group) then Direct(order, listc, Flagged(e, ANY_GROUP_EVENT)) else []
  }

  /** What the first n groups of the proxy's table deliver. */
  function Groups(order: seq<Subscriber>, listc: nat, e: Event, n: nat): seq<Delivery>
    requires listc > 0
  {
    if n == 0 then [] else Groups(order, listc, e, n - 1) + GroupLog(order, listc, e, n)
  }

  /** What the standard proxy delivers for an event. */
  function ProxyLog(order: seq<Subscriber>, listc: nat, e: Event): seq<Delivery>
    requires listc > 0
  {
    Direct(order, listc, Flagged(e, ANY_EVENT)) + Groups(order, listc, e, 4)
  }

  /** Everything one emit delivers, the standard proxy first. */
  function EmitLog(order: seq<Subscriber>, listc: nat, proxied: bool, e: Event): seq<Delivery>
    requires listc > 0
  {
    (if proxied && !e.proxyEvent then ProxyLog(order, listc, e) else []) + Direct(order, listc, e)
  }

  // ---------- the hashed table against the flat list ----------

  lemma {:induction false} BucketAppend(x: seq<Subscriber>, y: seq<Subscriber>, h: nat)
    ensures Bucket(x + y, h) == Bucket(x, h) + Bucket(y, h)
  {
    if x == [] {
      assert x + y == y;
    } else {
      assert (x + y)[1..] == x[1..] + y;
      BucketAppend(x[1..], y, h);
    }
  }

  lemma {:induction false} BucketMembers(order: seq<Subscriber>, h: nat)
    ensures forall s :: s in Bucket(order, h) <==> s in order && s.hash == h
  {
    if order != [] {
      BucketMembers(order[1..], h);
      assert order == [order[0]] + order[1..];
    }
  }

  /** Every matching subscriber is in the bucket searched. */
  ghost predicate AllInBucket(order: seq<Subscriber>, h: nat, e: Event) {
    forall i :: 0 <= i < |order| && order[i].Matches(e) ==> order[i].hash == h
  }

  lemma {:induction false} CalledLength(order: seq<Subscriber>, h: nat, e: Event)
    ensures |Called(Bucket(order, h), e)| <= |Called(order, e)|
    ensures |Called(Bucket(order, h), e)| == |Called(order, e)| ==> AllInBucket(order, h, e)
    ensures AllInBucket(order, h, e) ==> Called(Bucket(order, h), e) == Called(order, e)
  {
    if order != [] {
      var first, rest := order[0], order[1..];
      CalledLength(rest, h, e);
      var b := Bucket(rest, h);
      if first.hash == h {
        assert ([first] + b)[1..] == b;
      } else {
        assert [] + b == b;
      }
      assert AllInBucket(order, h, e) ==> AllInBucket(rest, h, e) by {
        assert forall i :: 0 <= i < |rest| ==> rest[i] == order[i + 1];
      }
      assert AllInBucket(rest, h, e) && (first.Matches(e) ==> first.hash == h) ==> AllInBucket(order, h, e) by {
        assert forall i :: 1 <= i < |order| ==> order[i] == rest[i - 1];
      }
    }
  }

  ghost predicate Hashed(order: seq<Subscriber>, listc: nat)
    requires listc > 0
  {
    forall i :: 0 <= i < |order| ==> order[i].hash == Hash(order[i].event, listc)
  }

  /** No matching subscriber to SPECIAL sits in another bucket than the one searched. */
  ghost predicate NoneMissed(order: seq<Subscriber>, listc: nat, e: Event)
    requires listc > 0
  {
    || Hash(SPECIAL, listc) == Hash(e.event, listc)
    || forall i :: 0 <= i < |order| && order[i].event == SPECIAL ==> !order[i].Matches(e)
  }

  /** Searching one bucket delivers what searching the whole list would, exactly when no
      matching subscriber to SPECIAL sits in another bucket. */
  lemma BucketIsFlat(order: seq<Subscriber>, listc: nat, e: Event)
    requires listc > 0 && Hashed(order, listc)
    ensures Direct(order, listc, e) == Called(order, e) <==> NoneMissed(order, listc, e)
    ensures |Direct(order, listc, e)| <= |Called(order, e)|
    ensures |Direct(order, listc, e)| == |Called(order, e)| ==> Direct(order, listc, e) == Called(order, e)
  {
    var h := Hash(e.event, listc);
    CalledLength(order, h, e);
    forall i | 0 <= i < |order| && order[i].Matches(e)
      ensures order[i].hash == if order[i].event == SPECIAL then Hash(SPECIAL, listc) else h
    {
    }
  }

  predicate InSomeGroup(event: uint32) {
    0x2_0100 <= event <= 0x2_04ff
  }

  lemma {:induction false} GroupsOnce(order: seq<Subscriber>, listc: nat, e: Event, n: nat)
    requires listc > 0
    ensures Groups(order, listc, e, n)
         == if 0x2_0100 <= e.event < 0x2_0100 + 0x100 * n then Direct(order, listc, Flagged(e, ANY_GROUP_EVENT)) else []
  {
    hide Direct;
    if n > 0 {
      GroupsOnce(order, listc, e, n - 1);
    }
  }

  /** What an emit would deliver if every subscriber in the list were asked, hashing apart. */
  function FlatLog(order: seq<Subscriber>, proxied: bool, e: Event): seq<Delivery> {
    (if proxied && !e.proxyEvent then
       Called(order, Flagged(e, ANY_EVENT))
       + (if InSomeGroup(e.event) then Called(order, Flagged(e, ANY_GROUP_EVENT)) else [])
     else [])
    + Called(order, e)
  }

  /** A whole emit, through the proxy or not, delivers what the flat list would, exactly when
      none of its searches misses a subscriber to SPECIAL. */
  lemma EmitIsFlat(order: seq<Subscriber>, listc: nat, proxied: bool, e: Event)
    requires listc > 0 && Hashed(order, listc)
    ensures EmitLog(order, listc, proxied, e) == FlatLog(order, proxied, e) <==>
            && NoneMissed(order, listc, e)
            && (proxied && !e.proxyEvent ==>
                  && NoneMissed(order, listc, Flagged(e, ANY_EVENT))
                  && (InSomeGroup(e.event) ==> NoneMissed(order, listc, Flagged(e, ANY_GROUP_EVENT))))
  {
    hide Direct, Called, NoneMissed, Hashed, Groups, Flagged;
    GroupsOnce(order, listc, e, 4);
    BucketIsFlat(order, listc, e);
    BucketIsFlat(order, listc, Flagged(e, ANY_EVENT));
    BucketIsFlat(order, listc, Flagged(e, ANY_GROUP_EVENT));
  }

  /** With no subscriber to SPECIAL that is always so. */
  lemma PlainEmitIsFlat(order: seq<Subscriber>, listc: nat, proxied: bool, e: Event)
    requires listc > 0 && Hashed(order, listc) && forall i :: 0 <= i < |order| ==> order[i].event != SPECIAL
    ensures EmitLog(order, listc, proxied, e) == FlatLog(order, proxied, e)
  {
    hide EmitLog, FlatLog;
    EmitIsFlat(order, listc, proxied, e);
  }

  // ---------- unsubscribing ----------

  function Without(order: seq<Subscriber>, s: Subscriber): seq<Subscriber> {
    if order == [] then []
    else (if order[0] == s then [] else [order[0]]) + Without(order[1..], s)
  }

  lemma {:induction false} WithoutBucket(order: seq<Subscriber>, s: Subscriber, h: nat)
    ensures Bucket(Without(order, s), h) == Without(Bucket(order, h), s)
    decreases |order|
  {
    if order != [] {
      var first, rest := order[0], order[1..];
      WithoutBucket(rest, s, h);
      var w, b := Without(rest, s), Bucket(rest, h);
      assert ([first] + w)[1..] == w && ([first] + b)[1..] == b;
      assert [] + b == b && [] + w == w;
    }
  }

  lemma {:induction false} WithoutKeeps(order: seq<Subscriber>, s: Subscriber)
    requires Distinct(order)
    ensures forall i :: 0 <= i < |Without(order, s)| ==> Without(order, s)[i] in order && Without(order, s)[i] != s
    ensures Distinct(Without(order, s))
  {
    if order != [] {
      var first, rest := order[0], order[1..];
      WithoutKeeps(rest, s);
      assert first !in rest;
      assert order == [first] + rest;
      var w := Without(rest, s);
      if first != s {
        assert Without(order, s) == [first] + w;
      } else {
        assert Without(order, s) == w;
      }
    }
  }

  lemma {:induction false} WithoutAbsent(order: seq<Subscriber>, s: Subscriber)
    requires s !in order
    ensures Without(order, s) == order
  {
    if order != [] {
      WithoutAbsent(order[1..], s);
      assert order == [order[0]] + order[1..];
    }
  }

  lemma {:induction false} WithoutAt(order: seq<Subscriber>, s: Subscriber, k: nat)
    requires Distinct(order) && k < |order| && order[k] == s
    ensures Without(order, s) == order[..k] + order[k + 1..]
  {
    if k == 0 {
      WithoutAbsent(order[1..], s);
    } else {
      WithoutAt(order[1..], s, k - 1);
      assert order[..k] == [order[0]] + order[1..][..k - 1];
      assert order[k + 1..] == order[1..][k..];
    }
  }

  lemma BucketSnoc(order: seq<Subscriber>, s: Subscriber, h: nat)
    ensures Bucket(order + [s], h) == if s.hash == h then Bucket(order, h) + [s] else Bucket(order, h)
  {
    BucketAppend(order, [s], h);
    assert Bucket([s], h) == if s.hash == h then [s] else [];
  }

  // ---------- how often a subscriber is called ----------

  ghost predicate Distinct(order: seq<Subscriber>) {
    forall i, j :: 0 <= i < j < |order| ==> order[i] != order[j]
  }

  function Count(log: seq<Delivery>, s: Subscriber): nat {
    if log == [] then 0 else (if log[0].who == s then 1 else 0) + Count(log[1..], s)
  }

  lemma {:induction false} CountAppend(x: seq<Delivery>, y: seq<Delivery>, s: Subscriber)
    ensures Count(x + y, s) == Count(x, s) + Count(y, s)
  {
    if x == [] {
      assert x + y == y;
    } else {
      assert (x + y)[1..] == x[1..] + y;
      CountAppend(x[1..], y, s);
    }
  }

  lemma {:induction false} CalledOnce(order: seq<Subscriber>, h: nat, e: Event, s: Subscriber)
    requires Distinct(order)
    ensures Count(Called(Bucket(order, h), e), s) == if s in order && s.hash == h && s.Matches(e) then 1 else 0
  {
    if order != [] {
      var first, rest := order[0], order[1..];
      CalledOnce(rest, h, e, s);
      assert first !in rest;
      assert order == [first] + rest;
      var b := Bucket(rest, h);
      if first.hash == h {
        assert ([first] + b)[1..] == b;
        if first.Matches(e) {
          assert ([Delivery(first, e)] + Called(b, e))[1..] == Called(b, e);
        } else {
          assert [] + Called(b, e) == Called(b, e);
        }
      } else {
        assert [] + b == b;
      }
    }
  }

  lemma DirectCount(order: seq<Subscriber>, listc: nat, e: Event, s: Subscriber)
    requires listc > 0 && Distinct(order) && s in order && s.hash == Hash(s.event, listc) && s.event != SPECIAL
    ensures Count(Direct(order, listc, e), s) == if s.Matches(e) then 1 else 0
  {
    CalledOnce(order, Hash(e.event, listc), e, s);
  }

  /** One emit calls a live subscriber once for the any event it causes, once for the group
      event it causes, and once for itself, whichever of the three match. */
  lemma EmitCount(order: seq<Subscriber>, listc: nat, e: Event, s: Subscriber)
    requires listc > 0 && Distinct(order) && s in order && s.hash == Hash(s.event, listc) && s.event != SPECIAL
    requires !e.proxyEvent
    ensures Count(EmitLog(order, listc, true, e), s) ==
            (if s.Matches(Flagged(e, ANY_EVENT)) then 1 else 0)
            + (if InSomeGroup(e.event) && s.Matches(Flagged(e, ANY_GROUP_EVENT)) then 1 else 0)
            + (if s.Matches(e) then 1 else 0)
  {
    hide Direct;
    CountAppend(ProxyLog(order, listc, e), Direct(order, listc, e), s);
    CountAppend(Direct(order, listc, Flagged(e, ANY_EVENT)), Groups(order, listc, e, 4), s);
    GroupsOnce(order, listc, e, 4);
    DirectCount(order, listc, Flagged(e, ANY_GROUP_EVENT), s);
    DirectCount(order, listc, Flagged(e, ANY_EVENT), s);
    DirectCount(order, listc, e, s);
  }

  /** What the proxy tells of event e under another number: the flag is set, the number of e is
      in event_proxy, and everything else is that of e. */
  predicate Relayed(d: Event, e: Event, number: uint32) {
    && d.event == number && d.eventProxy == e.event && d.proxyEvent
    && d.nettrans == e.nettrans && d.emitter == e.emitter && d.target == e.target && d.targetType == e.targetType
    && d.arg0 == e.arg0 && d.arg1 == e.arg1 && d.arg2 == e.arg2 && d.arg2Len == e.arg2Len
  }

  lemma FlaggedIsRelayed(e: Event, number: uint32)
    ensures Relayed(Flagged(e, number), e, number)
  {
  }

  /** Asked for an event, a list calls exactly its subscribers of which the event is that of the
      call or special, and each other field is that of the call or -1. */
  lemma CalledExactly(order: seq<Subscriber>, e: Event, d: Delivery)
    ensures d in Called(order, e) <==>
            && d.who in order && d.what == e
            && (d.who.event == e.event || d.who.event == 0xffff_ffff)
            && (d.who.emitter == e.emitter || d.who.emitter == -1)
            && (d.who.target == e.target || d.who.target == -1)
            && (d.who.targetType == e.targetType || d.who.targetType == -1)
  {
    if order != [] {
      CalledExactly(order[1..], e, d);
      assert d.who in order <==> d.who == order[0] || d.who in order[1..];
    }
  }

  /** A subscriber to any event hears of every other event exactly once, through the proxy and
      before anyone hears of the event itself; of an any event itself it hears twice. */
  lemma AnySubscriberHearsOnce(order: seq<Subscriber>, listc: nat, e: Event, s: Subscriber)
    requires listc > 0 && Distinct(order) && s in order && s.hash == Hash(s.event, listc)
    requires s.event == ANY_EVENT && !e.proxyEvent && s.Matches(Flagged(e, ANY_EVENT))
    ensures var log := EmitLog(order, listc, true, e);
            && Count(log, s) == (if e.event == ANY_EVENT then 2 else 1)
            && exists i :: 0 <= i < |log| && log[i].who == s && Relayed(log[i].what, e, ANY_EVENT)
                           && forall j :: 0 <= j < |log| && log[j].what == e ==> i < j
  {
    EmitCount(order, listc, e, s);
    DirectHas(order, listc, Flagged(e, ANY_EVENT), s);
    var first, log := Direct(order, listc, Flagged(e, ANY_EVENT)), EmitLog(order, listc, true, e);
    var i :| 0 <= i < |first| && first[i] == Delivery(s, Flagged(e, ANY_EVENT));
    ProxyComesFirst(order, listc, e);
    FlaggedIsRelayed(e, ANY_EVENT);
    hide EmitLog, Direct, Relayed;
    assert log[i] == first[i];
  }

  /** The first deliveries are those of the any event, and none of the event itself is among them. */
  lemma ProxyComesFirst(order: seq<Subscriber>, listc: nat, e: Event)
    requires listc > 0 && !e.proxyEvent
    ensures var first, log := Direct(order, listc, Flagged(e, ANY_EVENT)), EmitLog(order, listc, true, e);
            first <= log && forall j :: 0 <= j < |first| ==> log[j].what != e
  {
    CalledWhat(Bucket(order, Hash(ANY_EVENT, listc)), Flagged(e, ANY_EVENT));
    var first := Direct(order, listc, Flagged(e, ANY_EVENT));
    assert EmitLog(order, listc, true, e) == first + (Groups(order, listc, e, 4) + Direct(order, listc, e));
  }

  lemma {:induction false} CalledWhat(order: seq<Subscriber>, e: Event)
    ensures forall i :: 0 <= i < |Called(order, e)| ==> Called(order, e)[i].what == e
  {
    if order != [] {
      CalledWhat(order[1..], e);
    }
  }

  lemma {:induction false} CalledHas(order: seq<Subscriber>, e: Event, s: Subscriber)
    requires s in order && s.Matches(e)
    ensures Delivery(s, e) in Called(order, e)
  {
    if order[0] != s {
      assert s in order[1..];
      CalledHas(order[1..], e, s);
    }
  }

  lemma DirectHas(order: seq<Subscriber>, listc: nat, e: Event, s: Subscriber)
    requires listc > 0 && s in order && s.hash == Hash(e.event, listc) && s.Matches(e)
    ensures Delivery(s, e) in Direct(order, listc, e)
  {
    BucketMembers(order, s.hash);
    CalledHas(Bucket(order, s.hash), e, s);
  }

  /** A subscriber to "any client event" is called for every client, stream, source and
      sample event, because the header gives the four group events one number. */
  lemma GroupSubscriberHears(order: seq<Subscriber>, listc: nat, e: Event, s: Subscriber)
    requires listc > 0 && Distinct(order) && s in order && s.hash == Hash(s.event, listc)
    requires s.event == ANY_GROUP_EVENT && !e.proxyEvent && s.Matches(Flagged(e, ANY_GROUP_EVENT))
    ensures var log := EmitLog(order, listc, true, e);
            && Count(log, s) == (if InSomeGroup(e.event) || e.event == ANY_GROUP_EVENT then 1 else 0)
            && (InSomeGroup(e.event) ==>
                  exists i :: 0 <= i < |log| && log[i].who == s && Relayed(log[i].what, e, ANY_GROUP_EVENT))
  {
    EmitCount(order, listc, e, s);
    hide EmitLog, Relayed;
    if InSomeGroup(e.event) {
      var group := Flagged(e, ANY_GROUP_EVENT);
      DirectHas(order, listc, group, s);
      FlaggedIsRelayed(e, ANY_GROUP_EVENT);
      GroupComesSecond(order, listc, e);
      hide Direct;
      var any, log := Direct(order, listc, Flagged(e, ANY_EVENT)), EmitLog(order, listc, true, e);
      var i :| 0 <= i < |Direct(order, listc, group)| && Direct(order, listc, group)[i] == Delivery(s, group);
      assert log[|any| + i] == Delivery(s, group);
    }
  }

  lemma GroupComesSecond(order: seq<Subscriber>, listc: nat, e: Event)
    requires listc > 0 && !e.proxyEvent && InSomeGroup(e.event)
    ensures Direct(order, listc, Flagged(e, ANY_EVENT)) + Direct(order, listc, Flagged(e, ANY_GROUP_EVENT))
            <= EmitLog(order, listc, true, e)
  {
    hide Direct;
    GroupsOnce(order, listc, e, 4);
    hide Groups;
  }
}
