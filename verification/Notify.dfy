/** struct roar_notify_core: a table of linked subscriber lists, the emitter and the
    standard proxy, which calls the emitter again. Callbacks are recorded, in the order they
    are made, in log; they do not change the table themselves. */
module Notify {
  import opened CInt
  import opened Events
  import opened Subscribers

  /** chain lists, in order, the subscribers reached from head. */
  ghost predicate IsList(head: Subscriber?, chain: seq<Subscriber>)
    reads chain`next
  {
    if chain == [] then head == null else head == chain[0] && IsList(chain[0].next, chain[1..])
  }

  /** The links of chain: each to the following one, the last to end. */
  ghost predicate Linked(chain: seq<Subscriber>, end: Subscriber?)
    reads chain`next
  {
    forall i {:trigger chain[i].next} :: 0 <= i < |chain| ==>
      chain[i].next == if i + 1 < |chain| then chain[i + 1] else end
  }

  lemma {:induction false} ListIsLinked(head: Subscriber?, chain: seq<Subscriber>)
    requires IsList(head, chain)
    ensures Linked(chain, null)
  {
    if chain != [] {
      var rest := chain[1..];
      ListIsLinked(chain[0].next, rest);
      forall i {:trigger chain[i].next} | 0 <= i < |chain|
        ensures chain[i].next == if i + 1 < |chain| then chain[i + 1] else null
      {
        if i == 0 {
          assert IsList(chain[0].next, rest);
        } else {
          assert rest[i - 1].next == if i < |rest| then rest[i] else null;
        }
      }
    }
  }

  lemma {:induction false} LinkedIsList(chain: seq<Subscriber>, end: Subscriber?, tail: seq<Subscriber>, k: nat)
    requires Linked(chain, end) && IsList(end, tail) && k <= |chain|
    ensures IsList(if k < |chain| then chain[k] else end, chain[k..] + tail)
    decreases |chain| - k
  {
    if k == |chain| {
      assert chain[k..] + tail == tail;
    } else {
      LinkedIsList(chain, end, tail, k + 1);
      assert (chain[k..] + tail)[1..] == chain[k + 1..] + tail;
      assert chain[k].next == if k + 1 < |chain| then chain[k + 1] else end;
    }
  }

  /** The walk to the end and the assignment there. */
  method AppendTo(head: Subscriber, subs: Subscriber, ghost chain: seq<Subscriber>)
    requires IsList(head, chain) && Distinct(chain) && subs !in chain && subs.next == null
    modifies chain`next
    ensures IsList(head, chain + [subs])
  {
    ListIsLinked(head, chain);
    var cur: Subscriber? := head;
    var old_ := head;
    ghost var k := 0;
    while cur != null
      invariant 0 <= k <= |chain| && cur == (if k < |chain| then chain[k] else null)
      invariant k > 0 ==> old_ == chain[k - 1]
      decreases |chain| - k
    {
      old_ := cur;
      assert chain[k].next == if k + 1 < |chain| then chain[k + 1] else null;
      cur := cur.next;
      k := k + 1;
    }
    old_.next := subs;
    assert IsList(subs, [subs]);
    LinkedIsList(chain, subs, [subs], 0);
    assert chain[0..] == chain;
  }

  /** The walk that unlinks a subscriber which is not the head; false if it is not there. */
  method Unlink(head: Subscriber?, subscriber: Subscriber, ghost chain: seq<Subscriber>) returns (found: bool)
    requires IsList(head, chain) && Distinct(chain) && head != subscriber
    modifies chain`next, subscriber`freed
    ensures found <==> subscriber in chain
    ensures IsList(head, Without(chain, subscriber))
    ensures subscriber.freed == (old(subscriber.freed) || found)
  {
    ListIsLinked(head, chain);
    var cur := head;
    var old_: Subscriber? := null;
    ghost var k := 0;
    while cur != null && cur != subscriber
      invariant 0 <= k <= |chain| && cur == (if k < |chain| then chain[k] else null)
      invariant k > 0 ==> old_ == chain[k - 1]
      invariant subscriber !in chain[..k]
      decreases |chain| - k
    {
      old_ := cur;
      assert chain[k].next == if k + 1 < |chain| then chain[k + 1] else null;
      cur := cur.next;
      k := k + 1;
    }
    if cur != subscriber {
      assert chain[..k] == chain;
      WithoutAbsent(chain, subscriber);
      return false;
    }
    assert chain[k].next == if k + 1 < |chain| then chain[k + 1] else null;
    LinkedSuffix(chain, k + 1);
    old_.next := cur.next;
    subscriber.freed := true;
    found := true;
    LinkedIsList(chain[..k], cur.next, chain[k + 1..], 0);
    assert chain[..k][0..] == chain[..k];
    WithoutAt(chain, subscriber, k);
  }

  lemma LinkedSuffix(chain: seq<Subscriber>, k: nat)
    requires Linked(chain, null) && k <= |chain|
    ensures IsList(if k < |chain| then chain[k] else null, chain[k..])
  {
    LinkedIsList(chain, null, [], k);
    assert chain[k..] + [] == chain[k..];
  }

  function Deeper(d: nat, e: nat): nat {
    if d > e then d else e
  }

  class Core {
    const lists: array<Subscriber?>
    var proxied: bool            // whether the standard proxy is registered
    var log: seq<Delivery>
    ghost var order: seq<Subscriber>   // live subscribers, oldest first

    ghost predicate Valid()
      reads this`order, lists, order`next, order`freed
    {
      && lists.Length > 0
      && Distinct(order) && Hashed(order, lists.Length)
      && (forall i :: 0 <= i < |order| ==> !order[i].freed)
      && forall h :: 0 <= h < lists.Length ==> IsList(lists[h], Bucket(order, h))
    }

    /** roar_notify_core_new accepts the powers of two up to 1024. */
    static predicate SizeOk(n: int) {
      n in {1, 2, 4, 8, 16, 32, 64, 128, 256, 512, 1024}
    }

    constructor (listc: nat)
      requires SizeOk(listc)
      ensures Valid() && order == [] && log == [] && !proxied && lists.Length == listc && fresh(lists)
    {
      lists := new Subscriber?[listc](i => null);
      proxied, log, order := false, [], [];
    }

    /** roar_notify_core_new: -1 asks for the default of 16 lists. */
    static method New(listc: int) returns (core: Core?)
      ensures core == null <==> !(SizeOk(listc) || listc == -1)
      ensures core != null ==> fresh(core) && fresh(core.lists) && core.Valid() && core.order == []
                               && core.log == [] && !core.proxied
                               && core.lists.Length == if listc == -1 then 16 else listc
    {
      if listc == -1 {
        core := new Core(16);
      } else if SizeOk(listc) {
        core := new Core(listc);
      } else {
        core := null;
      }
    }

    method RegisterProxy()
      modifies this`proxied
      ensures proxied
    {
      proxied := true;
    }

    /** Puts a new subscriber at the end of list h. */
    method Insert(h: nat, subs: Subscriber, ghost chain: seq<Subscriber>)
      requires h < lists.Length && IsList(lists[h], chain) && Distinct(chain) && subs !in chain && subs.next == null
      modifies lists, chain`next
      ensures IsList(lists[h], chain + [subs])
      ensures forall g :: 0 <= g < lists.Length && g != h ==> lists[g] == old(lists[g])
    {
      if lists[h] == null {
        lists[h] := subs;
        assert chain + [subs] == [subs];
        assert IsList(subs, [subs]);
      } else {
        AppendTo(lists[h], subs, chain);
      }
    }

    /** Lists a new subscriber, last in order. */
    method List(subs: Subscriber)
      requires Valid() && subs !in order && subs.next == null && !subs.freed
      requires subs.hash == Hash(subs.event, lists.Length)
      modifies this`order, lists, order`next
      ensures Valid() && order == old(order) + [subs]
    {
      hide IsList, Hash;
      ghost var was, h := order, subs.hash;
      BucketDistinct(was, h);
      assert forall g: nat :: g < lists.Length ==> IsList(lists[g], Bucket(was, g));
      OtherBuckets(was, h);
      Insert(subs.hash, subs, Bucket(was, h));
      order := was + [subs];
      forall g: nat | g < lists.Length ensures IsList(lists[g], Bucket(order, g)) {
        BucketSnoc(was, subs, g);
      }
    }

    method Subscribe(e: Event) returns (subs: Subscriber)
      requires Valid()
      modifies this`order, lists, order`next
      ensures Valid() && fresh(subs) && order == old(order) + [subs]
      ensures subs.event == e.event && subs.emitter == e.emitter
      ensures subs.target == e.target && subs.targetType == e.targetType
    {
      hide IsList, Hash;
      subs := new Subscriber(e, Hash(e.event, lists.Length));
      List(subs);
    }

    /** Takes a subscriber off list h; the head is only unlinked, any other one also freed. */
    method Remove(h: nat, subscriber: Subscriber, ghost chain: seq<Subscriber>) returns (found: bool)
      requires h < lists.Length && IsList(lists[h], chain) && Distinct(chain)
      modifies lists, chain`next, subscriber`freed
      ensures found <==> subscriber in chain
      ensures IsList(lists[h], Without(chain, subscriber))
      ensures forall g :: 0 <= g < lists.Length && g != h ==> lists[g] == old(lists[g])
      ensures subscriber.freed == (old(subscriber.freed) || (found && old(lists[h]) != subscriber))
    {
      var cur := lists[h];
      if cur == subscriber {
        lists[h] := lists[h].next;
        WithoutAt(chain, subscriber, 0);
        assert Without(chain, subscriber) == chain[1..];
        return true;
      } else {
        found := Unlink(cur, subscriber, chain);
      }
    }

    method Unsubscribe(subscriber: Subscriber) returns (r: int)
      requires Valid() && subscriber.hash < lists.Length && !subscriber.freed
      modifies this`order, lists, order`next, subscriber`freed
      ensures Valid() && order == Without(old(order), subscriber)
      ensures r == if subscriber in old(order) then 0 else -1
      ensures subscriber.freed <==> r == 0 && old(lists[subscriber.hash]) != subscriber
    {
      hide IsList, Hash, Without;
      var h := subscriber.hash;
      ghost var was := order;
      ghost var chain := Bucket(was, h);
      BucketDistinct(was, h);
      BucketMembers(was, h);
      assert forall g: nat :: g < lists.Length ==> IsList(lists[g], Bucket(was, g));
      var found := Remove(h, subscriber, chain);
      order := Without(was, subscriber);
      WithoutKeeps(was, subscriber);
      forall g: nat | g < lists.Length ensures IsList(lists[g], Bucket(order, g)) {
        WithoutBucket(was, subscriber, g);
        if g != h {
          WithoutAbsent(Bucket(was, g), subscriber);
          assert forall i :: 0 <= i < |Bucket(was, g)| ==> Bucket(was, g)[i] !in chain;
        }
      }
      r := if found then 0 else -1;
    }

    // ---------- emitting ----------

    /** The loop of roar_notify_core_emit over one list. */
    method CallList(head: Subscriber?, e: Event, ghost chain: seq<Subscriber>)
      requires IsList(head, chain)
      modifies this`log
      ensures log == old(log) + Called(chain, e)
    {
      var cur := head;
      ghost var rest := chain;
      while cur != null
        invariant IsList(cur, rest)
        invariant log + Called(rest, e) == old(log) + Called(chain, e)
        decreases |rest|
      {
        ghost var before := log;
        if !(cur.event == SPECIAL || cur.event == e.event)
           || !(cur.emitter == -1 || cur.emitter == e.emitter)
           || !(cur.target == -1 || cur.target == e.target)
           || !(cur.targetType == -1 || cur.targetType == e.targetType)
        {
          cur := cur.next;
          rest := rest[1..];
          assert [] + Called(rest, e) == Called(rest, e);
          continue;
        }
        log := log + [Delivery(cur, e)];
        assert log + Called(rest[1..], e) == before + ([Delivery(cur, e)] + Called(rest[1..], e));
        cur := cur.next;
        rest := rest[1..];
      }
    }

    /** roar_notify_core_emit. Through the proxy it is entered again, but never deeper than
        two levels. */
    method Emit(e: Event) returns (ghost depth: nat)
      requires Valid()
      modifies this`log
      ensures Valid() && log == old(log) + EmitLog(order, lists.Length, proxied, e)
      ensures depth == if proxied && !e.proxyEvent then 2 else 1
      decreases if e.proxyEvent then 0 else 1, 1
    {
      hide IsList, Bucket, Hash;
      depth := 1;
      ghost var before := log;
      if proxied && !e.proxyEvent {
        ghost var inner := ProxyStd(e);
        depth := 1 + inner;
      }
      var h := Hash(e.event, lists.Length);
      CallList(lists[h], e, Bucket(order, h));
    }

    /** The inner loop: the events of one entry of the table. */
    method EmitGroup(e: Event, event: Event, events: seq<uint32>) returns (ghost depth: nat)
      requires Valid() && !e.proxyEvent && event == Flagged(e, ANY_EVENT) && events == [ANY_GROUP_EVENT, SPECIAL]
      modifies this`log
      ensures Valid() && depth == 1
      ensures log == old(log) + Direct(order, lists.Length, Flagged(e, ANY_GROUP_EVENT))
      decreases 0, 2
    {
      hide IsList, Direct;
      var locevent := event;
      depth := 0;
      var j: nat := 0;
      while events[j] != SPECIAL
        invariant j <= 1 && Valid() && depth == j
        invariant locevent.(event := ANY_EVENT) == event
        invariant log == old(log) + if j == 0 then [] else Direct(order, lists.Length, Flagged(e, ANY_GROUP_EVENT))
        decreases 1 - j
      {
        locevent := locevent.(event := events[j]);
        ghost var d := Emit(locevent);
        depth := Deeper(depth, d);
        j := j + 1;
      }
    }

    /** roar_notify_proxy_std: the any event first, then the events of the group the event
        falls into, each through the emitter with the proxy flag set. */
    method ProxyStd(e: Event) returns (ghost depth: nat)
      requires Valid() && !e.proxyEvent
      modifies this`log
      ensures Valid() && depth == 1
      ensures log == old(log) + ProxyLog(order, lists.Length, e)
      decreases 1, 0
    {
      hide IsList, Direct;
      var eventMin: seq<uint32> := [0x2_0100, 0x2_0200, 0x2_0300, 0x2_0400];
      var eventMax: seq<uint32> := [0x2_01ff, 0x2_02ff, 0x2_03ff, 0x2_04ff];
      var events: seq<uint32> := [ANY_GROUP_EVENT, SPECIAL];
      var oe := e.event;
      var locevent := e.(eventProxy := e.event, proxyEvent := true, event := ANY_EVENT);
      depth := Emit(locevent);
      ghost var base := log;
      var i: nat := 0;
      while i < |eventMin|
        invariant Valid() && i <= 4 && depth == 1
        invariant locevent.(event := ANY_EVENT) == Flagged(e, ANY_EVENT)
        invariant log == base + Groups(order, lists.Length, e, i)
      {
        if eventMin[i] <= oe && eventMax[i] >= oe {
          ghost var d := EmitGroup(e, locevent, events);
          depth := Deeper(depth, d);
        }
        i := i + 1;
      }
      assert Groups(order, lists.Length, e, i) == Groups(order, lists.Length, e, 4);
    }
  }

  /** Buckets have no subscriber in common. */
  lemma OtherBuckets(order: seq<Subscriber>, h: nat)
    ensures forall g: nat, i :: g != h && 0 <= i < |Bucket(order, g)| ==> Bucket(order, g)[i] !in Bucket(order, h)
  {
  }

  lemma {:induction false} BucketDistinct(order: seq<Subscriber>, h: nat)
    requires Distinct(order)
    ensures Distinct(Bucket(order, h))
  {
    if order != [] {
      BucketDistinct(order[1..], h);
      BucketMembers(order[1..], h);
      assert order[0] !in order[1..];
    }
  }
}
