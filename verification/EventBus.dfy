/** The notify core driven through any sequence of subscriptions, unsubscriptions and emits,
    against a plain list of numbered subscriptions that are asked in the order they were made.
    All the hashing leaves is that a subscription to the special event is asked only about
    events of its own bucket; with one bucket the list is flat. */
module EventBus {
  import opened CInt
  import opened Events
  import opened Subscribers
  import opened Notify

  /** Unsub names the subscription by its number. */
  datatype Op = Sub(pattern: Event) | Unsub(number: nat) | Say(event: Event)

  /** A call: the number of the subscription and the event it is told. */
  datatype Call = Call(number: nat, what: Event)

  // ---------- the flat list ----------

  predicate Fits(pattern: Event, e: Event) {
    Wants(pattern.event, pattern.emitter, pattern.target, pattern.targetType, e)
  }

  /** A subscription is called for the events it fits, if it is asked about them. */
  predicate Reached(pattern: Event, buckets: nat, e: Event)
    requires buckets > 0
  {
    Fits(pattern, e) && (pattern.event == SPECIAL ==> Hash(SPECIAL, buckets) == Hash(e.event, buckets))
  }

  /** The calls to the live subscriptions, in order. */
  function Asked(patterns: seq<Event>, live: seq<nat>, buckets: nat, e: Event): seq<Call>
    requires buckets > 0 && forall i :: 0 <= i < |live| ==> live[i] < |patterns|
  {
    if live == [] then []
    else
      (if Reached(patterns[live[0]], buckets, e) then [Call(live[0], e)] else [])
      + Asked(patterns, live[1..], buckets, e)
  }

  /** An event is told; through the proxy the any event and its group's event come first. */
  function Told(patterns: seq<Event>, live: seq<nat>, buckets: nat, proxied: bool, e: Event): seq<Call>
    requires buckets > 0 && forall i :: 0 <= i < |live| ==> live[i] < |patterns|
  {
    (if proxied && !e.proxyEvent then
       Asked(patterns, live, buckets, Flagged(e, ANY_EVENT))
       + (if InSomeGroup(e.event) then Asked(patterns, live, buckets, Flagged(e, ANY_GROUP_EVENT)) else [])
     else [])
    + Asked(patterns, live, buckets, e)
  }

  function Dropped(live: seq<nat>, number: nat): (r: seq<nat>)
    ensures forall i :: 0 <= i < |r| ==> r[i] in live
  {
    if live == [] then []
    else (if live[0] == number then [] else [live[0]]) + Dropped(live[1..], number)
  }

  /** Only live subscriptions are ended. */
  predicate Proper(made: nat, live: seq<nat>, ops: seq<Op>)
    decreases |ops|
  {
    ops == [] ||
    match ops[0]
    case Sub(_) => Proper(made + 1, live + [made], ops[1..])
    case Unsub(number) => number in live && Proper(made, Dropped(live, number), ops[1..])
    case Say(_) => Proper(made, live, ops[1..])
  }

  /** All calls of a run. */
  function Heard(patterns: seq<Event>, live: seq<nat>, buckets: nat, proxied: bool, ops: seq<Op>): seq<Call>
    requires buckets > 0 && forall i :: 0 <= i < |live| ==> live[i] < |patterns|
    decreases |ops|
  {
    if ops == [] then []
    else
      match ops[0]
      case Sub(pattern) => Heard(patterns + [pattern], live + [|patterns|], buckets, proxied, ops[1..])
      case Unsub(number) => Heard(patterns, Dropped(live, number), buckets, proxied, ops[1..])
      case Say(e) => Told(patterns, live, buckets, proxied, e) + Heard(patterns, live, buckets, proxied, ops[1..])
  }

  predicate Plain(patterns: seq<Event>) {
    forall k :: 0 <= k < |patterns| ==> patterns[k].event != SPECIAL
  }

  predicate PlainOps(ops: seq<Op>) {
    forall i :: 0 <= i < |ops| && ops[i].Sub? ==> ops[i].pattern.event != SPECIAL
  }

  lemma {:induction false} PlainAsked(patterns: seq<Event>, live: seq<nat>, buckets: nat, e: Event)
    requires buckets > 0 && Plain(patterns) && forall i :: 0 <= i < |live| ==> live[i] < |patterns|
    ensures Asked(patterns, live, buckets, e) == Asked(patterns, live, 1, e)
  {
    if live != [] {
      PlainAsked(patterns, live[1..], buckets, e);
    }
  }

  /** Without subscriptions to the special event the number of buckets does not matter: a run
      makes the calls of the flat list. */
  lemma {:induction false} PlainIsFlat(patterns: seq<Event>, live: seq<nat>, buckets: nat, proxied: bool, ops: seq<Op>)
    requires buckets > 0 && Plain(patterns) && PlainOps(ops)
    requires forall i :: 0 <= i < |live| ==> live[i] < |patterns|
    ensures Heard(patterns, live, buckets, proxied, ops) == Heard(patterns, live, 1, proxied, ops)
    decreases |ops|
  {
    hide Asked;
    if ops != [] {
      match ops[0]
      case Sub(pattern) => PlainIsFlat(patterns + [pattern], live + [|patterns|], buckets, proxied, ops[1..]);
      case Unsub(number) => PlainIsFlat(patterns, Dropped(live, number), buckets, proxied, ops[1..]);
      case Say(e) =>
        PlainAsked(patterns, live, buckets, e);
        PlainAsked(patterns, live, buckets, Flagged(e, ANY_EVENT));
        PlainAsked(patterns, live, buckets, Flagged(e, ANY_GROUP_EVENT));
        PlainIsFlat(patterns, live, buckets, proxied, ops[1..]);
    }
  }

  /** With one bucket every subscription is asked about everything. */
  lemma OneBucket(pattern: Event, e: Event)
    ensures Reached(pattern, 1, e) <==> Fits(pattern, e)
  {
  }

  /** The event of a call is one that was told, or what the proxy relays of one. */
  predicate Says(d: Event, e: Event, proxied: bool) {
    || d == e
    || (proxied && !e.proxyEvent
        && (Relayed(d, e, ANY_EVENT) || (InSomeGroup(e.event) && Relayed(d, e, ANY_GROUP_EVENT))))
  }

  /** Each field of the subscription called is that of the event or left open. */
  predicate Meant(pattern: Event, d: Event) {
    && (pattern.event == d.event || pattern.event == 0xffff_ffff)
    && (pattern.emitter == d.emitter || pattern.emitter == -1)
    && (pattern.target == d.target || pattern.target == -1)
    && (pattern.targetType == d.targetType || pattern.targetType == -1)
  }

  /** The patterns of all subscriptions of a run. */
  function AllPatterns(patterns: seq<Event>, ops: seq<Op>): (all: seq<Event>)
    ensures |all| >= |patterns| && all[..|patterns|] == patterns
    decreases |ops|
  {
    if ops == [] then patterns
    else
      var all := AllPatterns(if ops[0].Sub? then patterns + [ops[0].pattern] else patterns, ops[1..]);
      assert ops[0].Sub? ==> all[..|patterns|] == all[..|patterns| + 1][..|patterns|] == patterns;
      all
  }

  /** A call of a run goes to a subscription made in it that is meant, with an event said in it. */
  ghost predicate Right(c: Call, all: seq<Event>, proxied: bool, ops: seq<Op>) {
    && c.number < |all| && Meant(all[c.number], c.what)
    && exists j :: 0 <= j < |ops| && ops[j].Say? && Says(c.what, ops[j].event, proxied)
  }

  lemma {:induction false} AskedRightly(patterns: seq<Event>, live: seq<nat>, buckets: nat, e: Event)
    requires buckets > 0 && forall i :: 0 <= i < |live| ==> live[i] < |patterns|
    ensures forall i :: 0 <= i < |Asked(patterns, live, buckets, e)| ==>
              var c := Asked(patterns, live, buckets, e)[i];
              c.what == e && c.number < |patterns| && Meant(patterns[c.number], e)
  {
    hide Hash;
    if live != [] {
      AskedRightly(patterns, live[1..], buckets, e);
    }
  }

  lemma ToldRightly(patterns: seq<Event>, live: seq<nat>, buckets: nat, proxied: bool, e: Event)
    requires buckets > 0 && forall i :: 0 <= i < |live| ==> live[i] < |patterns|
    ensures forall i :: 0 <= i < |Told(patterns, live, buckets, proxied, e)| ==>
              var c := Told(patterns, live, buckets, proxied, e)[i];
              Says(c.what, e, proxied) && c.number < |patterns| && Meant(patterns[c.number], c.what)
  {
    AskedRightly(patterns, live, buckets, e);
    AskedRightly(patterns, live, buckets, Flagged(e, ANY_EVENT));
    AskedRightly(patterns, live, buckets, Flagged(e, ANY_GROUP_EVENT));
    FlaggedIsRelayed(e, ANY_EVENT);
    FlaggedIsRelayed(e, ANY_GROUP_EVENT);
    hide Asked, Meant, Relayed, Flagged;
  }

  /** Every call of a run is right. */
  lemma {:induction false} HeardRightly(patterns: seq<Event>, live: seq<nat>, buckets: nat, proxied: bool, ops: seq<Op>)
    requires buckets > 0 && forall i :: 0 <= i < |live| ==> live[i] < |patterns|
    ensures forall i :: 0 <= i < |Heard(patterns, live, buckets, proxied, ops)| ==>
              Right(Heard(patterns, live, buckets, proxied, ops)[i], AllPatterns(patterns, ops), proxied, ops)
    decreases |ops|
  {
    hide Told, Meant, Says;
    if ops != [] {
      var all := AllPatterns(patterns, ops);
      match ops[0]
      case Sub(pattern) =>
        HeardRightly(patterns + [pattern], live + [|patterns|], buckets, proxied, ops[1..]);
        StillRight(Heard(patterns + [pattern], live + [|patterns|], buckets, proxied, ops[1..]), all, proxied, ops);
      case Unsub(number) =>
        HeardRightly(patterns, Dropped(live, number), buckets, proxied, ops[1..]);
        StillRight(Heard(patterns, Dropped(live, number), buckets, proxied, ops[1..]), all, proxied, ops);
      case Say(e) =>
        HeardRightly(patterns, live, buckets, proxied, ops[1..]);
        StillRight(Heard(patterns, live, buckets, proxied, ops[1..]), all, proxied, ops);
        ToldRightly(patterns, live, buckets, proxied, e);
        forall i | 0 <= i < |Told(patterns, live, buckets, proxied, e)|
          ensures Right(Told(patterns, live, buckets, proxied, e)[i], all, proxied, ops)
        {
          var c := Told(patterns, live, buckets, proxied, e)[i];
          assert all[..|patterns|][c.number] == patterns[c.number];
          assert ops[0].Say? && Says(c.what, ops[0].event, proxied);
        }
    }
  }

  lemma StillRight(calls: seq<Call>, all: seq<Event>, proxied: bool, ops: seq<Op>)
    requires ops != [] && forall i :: 0 <= i < |calls| ==> Right(calls[i], all, proxied, ops[1..])
    ensures forall i :: 0 <= i < |calls| ==> Right(calls[i], all, proxied, ops)
  {
    hide Meant, Says;
    forall i | 0 <= i < |calls| ensures Right(calls[i], all, proxied, ops) {
      assert Right(calls[i], all, proxied, ops[1..]);
      var j :| 0 <= j < |ops| - 1 && ops[1..][j].Say? && Says(calls[i].what, ops[1..][j].event, proxied);
      assert ops[j + 1] == ops[1..][j];
    }
  }

  // ---------- the core beside it ----------

  /** Subscription number k was made with pattern k. */
  ghost predicate Made(subs: seq<Subscriber>, patterns: seq<Event>) {
    && |subs| == |patterns| && Distinct(subs)
    && forall k :: 0 <= k < |subs| ==>
         subs[k].event == patterns[k].event && subs[k].emitter == patterns[k].emitter
         && subs[k].target == patterns[k].target && subs[k].targetType == patterns[k].targetType
  }

  ghost predicate Numbers(live: seq<nat>, bound: nat) {
    (forall i :: 0 <= i < |live| ==> live[i] < bound) && forall i, j :: 0 <= i < j < |live| ==> live[i] != live[j]
  }

  /** The subscribers with the given numbers. */
  function Those(subs: seq<Subscriber>, live: seq<nat>): (order: seq<Subscriber>)
    requires forall i :: 0 <= i < |live| ==> live[i] < |subs|
    ensures |order| == |live| && forall i :: 0 <= i < |live| ==> order[i] == subs[live[i]]
  {
    seq(|live|, i requires 0 <= i < |live| => subs[live[i]])
  }

  /** The deliveries are the calls, subscribers for numbers. */
  ghost predicate Same(subs: seq<Subscriber>, log: seq<Delivery>, calls: seq<Call>) {
    && |log| == |calls|
    && forall i :: 0 <= i < |log| ==>
         calls[i].number < |subs| && log[i] == Delivery(subs[calls[i].number], calls[i].what)
  }

  lemma SameAppend(subs: seq<Subscriber>, x: seq<Delivery>, cx: seq<Call>, y: seq<Delivery>, cy: seq<Call>)
    requires Same(subs, x, cx) && Same(subs, y, cy)
    ensures Same(subs, x + y, cx + cy)
  {
  }

  lemma SameLater(subs: seq<Subscriber>, more: seq<Subscriber>, log: seq<Delivery>, calls: seq<Call>)
    requires Same(subs, log, calls)
    ensures Same(subs + more, log, calls)
  {
  }

  /** Searching the bucket of an event makes the calls to those asked and fitting. */
  lemma {:induction false} AskedIsDirect(subs: seq<Subscriber>, patterns: seq<Event>, live: seq<nat>, buckets: nat, e: Event)
    requires buckets > 0 && Made(subs, patterns) && forall i :: 0 <= i < |live| ==> live[i] < |patterns|
    requires Hashed(Those(subs, live), buckets)
    ensures Same(subs, Direct(Those(subs, live), buckets, e), Asked(patterns, live, buckets, e))
  {
    hide Hash;
    if live != [] {
      var order := Those(subs, live);
      assert order[1..] == Those(subs, live[1..]);
      assert Hashed(order[1..], buckets);
      AskedIsDirect(subs, patterns, live[1..], buckets, e);
      var s, n := order[0], live[0];
      var h := Hash(e.event, buckets);
      assert s.hash == Hash(s.event, buckets);
      assert s.hash == h && s.Matches(e) <==> Reached(patterns[n], buckets, e);
      FirstCalled(order, h, e);
      SameAppend(subs, if s.hash == h && s.Matches(e) then [Delivery(s, e)] else [],
                 if Reached(patterns[n], buckets, e) then [Call(n, e)] else [],
                 Called(Bucket(order[1..], h), e), Asked(patterns, live[1..], buckets, e));
    }
  }

  lemma FirstCalled(order: seq<Subscriber>, h: nat, e: Event)
    requires order != []
    ensures Called(Bucket(order, h), e)
         == (if order[0].hash == h && order[0].Matches(e) then [Delivery(order[0], e)] else [])
            + Called(Bucket(order[1..], h), e)
  {
    var rest := Bucket(order[1..], h);
    assert ([order[0]] + rest)[1..] == rest;
    assert [] + rest == rest;
  }

  /** What the core delivers is what is told. */
  lemma ToldIsLog(subs: seq<Subscriber>, patterns: seq<Event>, live: seq<nat>, buckets: nat, proxied: bool, e: Event)
    requires buckets > 0 && Made(subs, patterns) && forall i :: 0 <= i < |live| ==> live[i] < |patterns|
    requires Hashed(Those(subs, live), buckets)
    ensures Same(subs, EmitLog(Those(subs, live), buckets, proxied, e), Told(patterns, live, buckets, proxied, e))
  {
    hide Asked, Direct, Same, Hashed, Groups;
    assert |subs| == |patterns|;
    var order := Those(subs, live);
    var any, group := Flagged(e, ANY_EVENT), Flagged(e, ANY_GROUP_EVENT);
    AskedIsDirect(subs, patterns, live, buckets, e);
    AskedIsDirect(subs, patterns, live, buckets, any);
    AskedIsDirect(subs, patterns, live, buckets, group);
    GroupsOnce(order, buckets, e, 4);
    NothingSame(subs);
    var groups := if InSomeGroup(e.event) then Asked(patterns, live, buckets, group) else [];
    SameAppend(subs, Direct(order, buckets, any), Asked(patterns, live, buckets, any), Groups(order, buckets, e, 4), groups);
    SameAppend(subs, if proxied && !e.proxyEvent then ProxyLog(order, buckets, e) else [],
               if proxied && !e.proxyEvent then Asked(patterns, live, buckets, any) + groups else [],
               Direct(order, buckets, e), Asked(patterns, live, buckets, e));
  }

  lemma NothingSame(subs: seq<Subscriber>)
    ensures Same(subs, [], [])
  {
  }

  lemma {:induction false} DroppedIsWithout(subs: seq<Subscriber>, live: seq<nat>, number: nat)
    requires Distinct(subs) && number < |subs| && forall i :: 0 <= i < |live| ==> live[i] < |subs|
    ensures Those(subs, Dropped(live, number)) == Without(Those(subs, live), subs[number])
  {
    if live != [] {
      DroppedIsWithout(subs, live[1..], number);
      var order, rest := Those(subs, live), Dropped(live[1..], number);
      assert order[1..] == Those(subs, live[1..]);
      assert order[0] == subs[number] <==> live[0] == number;
      if live[0] != number {
        assert Those(subs, [live[0]] + rest) == [order[0]] + Those(subs, rest);
      }
    }
  }

  lemma {:induction false} DroppedNumbers(live: seq<nat>, number: nat, bound: nat)
    requires Numbers(live, bound)
    ensures Numbers(Dropped(live, number), bound)
  {
    if live != [] {
      DroppedNumbers(live[1..], number, bound);
    }
  }

  /** The core has the live subscriptions in order, and made the calls. */
  ghost predicate Tracks(core: Core, subs: seq<Subscriber>, patterns: seq<Event>, live: seq<nat>, calls: seq<Call>)
    reads core, core.lists, core.order
  {
    && core.Valid() && Made(subs, patterns) && Numbers(live, |subs|) && core.order == Those(subs, live)
    && Same(subs, core.log, calls)
  }

  /** One emit of the core delivers what is told. */
  method EmitTold(core: Core, e: Event, ghost subs: seq<Subscriber>, ghost patterns: seq<Event>, ghost live: seq<nat>,
                  ghost calls: seq<Call>)
    requires Tracks(core, subs, patterns, live, calls)
    modifies core`log
    ensures |patterns| == |subs| && Numbers(live, |subs|)
    ensures Tracks(core, subs, patterns, live, calls + Told(patterns, live, core.lists.Length, core.proxied, e))
  {
    hide Same, Told, EmitLog;
    ghost var buckets := core.lists.Length;
    ToldIsLog(subs, patterns, live, buckets, core.proxied, e);
    SameAppend(subs, core.log, calls, EmitLog(core.order, buckets, core.proxied, e),
               Told(patterns, live, buckets, core.proxied, e));
    ghost var depth := core.Emit(e);
  }

  method SubscribeNext(core: Core, pattern: Event, subs: seq<Subscriber>, ghost patterns: seq<Event>,
                       ghost live: seq<nat>, ghost calls: seq<Call>)
    returns (s: Subscriber)
    requires Tracks(core, subs, patterns, live, calls)
    modifies core`order, core.lists, core.order`next
    ensures fresh(s) && |patterns| == |subs|
    ensures Tracks(core, subs + [s], patterns + [pattern], live + [|subs|], calls)
  {
    hide Same, IsList;
    s := core.Subscribe(pattern);
    assert forall k :: 0 <= k < |subs| ==> subs[k] != s;
    SameLater(subs, [s], core.log, calls);
    MadeNext(subs, patterns, s, pattern);
    assert core.order == Those(subs + [s], live + [|subs|]);
  }

  lemma MadeNext(subs: seq<Subscriber>, patterns: seq<Event>, s: Subscriber, pattern: Event)
    requires Made(subs, patterns) && forall k :: 0 <= k < |subs| ==> subs[k] != s
    requires s.event == pattern.event && s.emitter == pattern.emitter
    requires s.target == pattern.target && s.targetType == pattern.targetType
    ensures Made(subs + [s], patterns + [pattern])
  {
  }

  method UnsubscribeLive(core: Core, number: nat, subs: seq<Subscriber>, ghost patterns: seq<Event>,
                         ghost live: seq<nat>, ghost calls: seq<Call>)
    requires Tracks(core, subs, patterns, live, calls) && number in live
    modifies core`order, core.lists, core.order`next, subs`freed
    ensures Tracks(core, subs, patterns, Dropped(live, number), calls)
  {
    hide Same, IsList, Made;
    MadeDistinct(subs, patterns);
    Live(core, subs, live, number);
    DroppedIsWithout(subs, live, number);
    DroppedNumbers(live, number, |subs|);
    var r := core.Unsubscribe(subs[number]);
  }

  lemma MadeDistinct(subs: seq<Subscriber>, patterns: seq<Event>)
    requires Made(subs, patterns)
    ensures Distinct(subs) && |subs| == |patterns|
  {
  }

  lemma Live(core: Core, subs: seq<Subscriber>, live: seq<nat>, number: nat)
    requires core.Valid() && Numbers(live, |subs|) && core.order == Those(subs, live) && number in live
    ensures number < |subs| && subs[number] in core.order
    ensures !subs[number].freed && subs[number].hash < core.lists.Length
  {
    var i :| 0 <= i < |live| && live[i] == number;
    assert core.order[i] == subs[number];
  }

  /** A new core, with or without the standard proxy, driven through any run that ends no
      subscription which is not live, makes exactly the calls of the list, in order; without
      subscriptions to the special event, of the flat list. */
  method Drive(listc: int, proxied: bool, ops: seq<Op>) returns (core: Core, subs: seq<Subscriber>)
    requires Core.SizeOk(listc) || listc == -1
    requires Proper(0, [], ops)
    ensures core.Valid() && core.lists.Length == if listc == -1 then 16 else listc
    ensures Same(subs, core.log, Heard([], [], core.lists.Length, proxied, ops))
    ensures PlainOps(ops) ==> Same(subs, core.log, Heard([], [], 1, proxied, ops))
    ensures forall i :: 0 <= i < |core.log| ==> RightDelivery(core.log[i], proxied, ops)
  {
    hide Same, Told, IsList, Made, Numbers, Tracks, Heard, AllPatterns, RightDelivery;
    var c := Core.New(listc);
    core := c;
    if proxied {
      core.RegisterProxy();
    }
    subs := [];
    ghost var patterns: seq<Event>, live: seq<nat>, calls: seq<Call> := [], [], [];
    ghost var n := core.lists.Length;
    NothingMade(core);
    assert ops[0..] == ops;
    for i := 0 to |ops|
      invariant fresh(core) && fresh(core.lists) && core.proxied == proxied
      invariant forall k :: 0 <= k < |subs| ==> fresh(subs[k])
      invariant Tracks(core, subs, patterns, live, calls)
      invariant Proper(|subs|, live, ops[i..])
      invariant (forall j :: 0 <= j < |live| ==> live[j] < |patterns|) && |patterns| == |subs|
      invariant calls + Heard(patterns, live, n, proxied, ops[i..]) == Heard([], [], n, proxied, ops)
      invariant AllPatterns(patterns, ops[i..]) == AllPatterns([], ops)
    {
      NextOp(patterns, live, n, proxied, ops, i);
      OrderIsThose(core, subs, patterns, live, calls);
      match ops[i]
      case Sub(pattern) =>
        var s := SubscribeNext(core, pattern, subs, patterns, live, calls);
        patterns, live, subs := patterns + [pattern], live + [|subs|], subs + [s];
      case Unsub(number) =>
        UnsubscribeLive(core, number, subs, patterns, live, calls);
        live := Dropped(live, number);
      case Say(e) =>
        EmitTold(core, e, subs, patterns, live, calls);
        calls := calls + Told(patterns, live, n, proxied, e);
    }
    NoOps(patterns, live, n, proxied, ops);
    assert calls + [] == calls;
    Driven(core, subs, patterns, live, calls, n, proxied, ops);
  }

  lemma NextOp(patterns: seq<Event>, live: seq<nat>, buckets: nat, proxied: bool, ops: seq<Op>, i: nat)
    requires i < |ops| && buckets > 0 && forall k :: 0 <= k < |live| ==> live[k] < |patterns|
    ensures ops[i].Sub? ==>
              Heard(patterns, live, buckets, proxied, ops[i..])
              == Heard(patterns + [ops[i].pattern], live + [|patterns|], buckets, proxied, ops[i + 1..])
    ensures ops[i].Unsub? ==>
              Heard(patterns, live, buckets, proxied, ops[i..])
              == Heard(patterns, Dropped(live, ops[i].number), buckets, proxied, ops[i + 1..])
    ensures ops[i].Say? ==>
              Heard(patterns, live, buckets, proxied, ops[i..])
              == Told(patterns, live, buckets, proxied, ops[i].event)
                 + Heard(patterns, live, buckets, proxied, ops[i + 1..])
    ensures AllPatterns(patterns, ops[i..])
            == AllPatterns(if ops[i].Sub? then patterns + [ops[i].pattern] else patterns, ops[i + 1..])
    ensures ops[i..][1..] == ops[i + 1..]
  {
    hide Told;
    assert ops[i..][1..] == ops[i + 1..];
  }

  lemma NoOps(patterns: seq<Event>, live: seq<nat>, buckets: nat, proxied: bool, ops: seq<Op>)
    requires buckets > 0 && forall k :: 0 <= k < |live| ==> live[k] < |patterns|
    ensures ops[|ops|..] == [] && ops[0..] == ops
    ensures Heard(patterns, live, buckets, proxied, []) == [] && AllPatterns(patterns, []) == patterns
  {
  }

  /** What a whole run leaves. */
  lemma Driven(core: Core, subs: seq<Subscriber>, patterns: seq<Event>, live: seq<nat>, calls: seq<Call>,
               buckets: nat, proxied: bool, ops: seq<Op>)
    requires Tracks(core, subs, patterns, live, calls) && buckets > 0
    requires calls == Heard([], [], buckets, proxied, ops) && patterns == AllPatterns([], ops)
    ensures core.Valid() && Same(subs, core.log, Heard([], [], buckets, proxied, ops))
    ensures PlainOps(ops) ==> Same(subs, core.log, Heard([], [], 1, proxied, ops))
    ensures forall i :: 0 <= i < |core.log| ==> RightDelivery(core.log[i], proxied, ops)
  {
    hide Same, Made, Tracks, Right, RightDelivery, AllPatterns, Heard;
    Tracked(core, subs, patterns, live, calls);
    HeardRightly([], [], buckets, proxied, ops);
    DeliveredRightly(subs, core.log, calls, patterns, proxied, ops);
    if PlainOps(ops) {
      PlainIsFlat([], [], buckets, proxied, ops);
    }
  }

  /** A delivery of a run: the subscriber is meant, and the event was said or relayed. */
  ghost predicate RightDelivery(d: Delivery, proxied: bool, ops: seq<Op>) {
    && (d.who.event == d.what.event || d.who.event == 0xffff_ffff)
    && (d.who.emitter == d.what.emitter || d.who.emitter == -1)
    && (d.who.target == d.what.target || d.who.target == -1)
    && (d.who.targetType == d.what.targetType || d.who.targetType == -1)
    && exists j :: 0 <= j < |ops| && ops[j].Say? && Says(d.what, ops[j].event, proxied)
  }

  lemma DeliveredRightly(subs: seq<Subscriber>, log: seq<Delivery>, calls: seq<Call>, all: seq<Event>,
                         proxied: bool, ops: seq<Op>)
    requires Same(subs, log, calls) && Made(subs, all)
    requires forall i :: 0 <= i < |calls| ==> Right(calls[i], all, proxied, ops)
    ensures forall i :: 0 <= i < |log| ==> RightDelivery(log[i], proxied, ops)
  {
    hide Says;
    forall i | 0 <= i < |log| ensures RightDelivery(log[i], proxied, ops) {
      assert Right(calls[i], all, proxied, ops);
    }
  }

  lemma Tracked(core: Core, subs: seq<Subscriber>, patterns: seq<Event>, live: seq<nat>, calls: seq<Call>)
    requires Tracks(core, subs, patterns, live, calls)
    ensures core.Valid() && Same(subs, core.log, calls) && Made(subs, patterns)
  {
  }

  lemma NothingMade(core: Core)
    requires core.Valid() && core.order == [] && core.log == []
    ensures Tracks(core, [], [], [], [])
  {
  }

  lemma OrderIsThose(core: Core, subs: seq<Subscriber>, patterns: seq<Event>, live: seq<nat>, calls: seq<Call>)
    requires Tracks(core, subs, patterns, live, calls)
    ensures forall k :: 0 <= k < |core.order| ==> core.order[k] in subs
  {
    forall k | 0 <= k < |core.order| ensures core.order[k] in subs {
      assert live[k] < |subs| && core.order[k] == subs[live[k]];
    }
  }
}
