/** The event dispatcher (`createDispatcher`): a set of subscriptions, each
    with an id filter and a set of event types, walked in subscription order
    on every dispatch. Handlers are opaque; each call is recorded in the
    dispatcher's delivery log, and whether a handler throws is an input. */
module Dispatcher {
  import opened Text
  import opened StoreTypes

  /** A handler, known by identity only. */
  type Handler = nat

  /** The normalised type selector: `'*'` or a set of types. */
  datatype TypeSet = AllTypes | Types(types: set<EventType>)

  /** The `eventType` argument of `subscribe`. */
  datatype TypeArg = AnyType | OneType(t: EventType) | TypeList(ts: seq<EventType>)

  /** One subscription object; `token` stands for its identity. */
  datatype Subscription = Subscription(token: nat, filter: string, eventTypes: TypeSet, handler: Handler)

  /** One handler call. */
  datatype Delivery = Delivery(handler: Handler, event: Event)

  /** `'*'` becomes the wildcard; a single type or an array becomes a set. */
  function Normalise(arg: TypeArg): (r: TypeSet)
    ensures arg.AnyType? <==> r.AllTypes?
    ensures arg.OneType? ==> r == Types({arg.t})
    ensures arg.TypeList? ==> r.Types? && forall t :: t in r.types <==> t in arg.ts
  {
    match arg
    case AnyType => AllTypes
    case OneType(t) => Types({t})
    case TypeList(ts) => Types(set t | t in ts)
  }

  /** The two checks of `dispatch`: the id filter, then the type set. */
  predicate Matches(sub: Subscription, e: Event) {
    (sub.filter == "*" || sub.filter == e.id)
    && (sub.eventTypes.AllTypes? || e.kind in sub.eventTypes.types)
  }

  /** The calls one dispatch makes, in subscription order. */
  function Deliveries(subs: seq<Subscription>, e: Event): (r: seq<Delivery>)
    ensures |r| <= |subs|
    ensures forall d :: d in r ==> d.event == e
  {
    if |subs| == 0 then []
    else (if Matches(subs[0], e) then [Delivery(subs[0].handler, e)] else []) + Deliveries(subs[1..], e)
  }

  /** The handlers among `ds` that throw, in call order. */
  function Failures(ds: seq<Delivery>, throws: Handler -> bool): (r: seq<Handler>)
    ensures |r| <= |ds|
  {
    if |ds| == 0 then []
    else (if throws(ds[0].handler) then [ds[0].handler] else []) + Failures(ds[1..], throws)
  }

  /** A handler is reported iff it was called and threw. */
  lemma {:induction false} FailuresAreThrowingCalls(ds: seq<Delivery>, throws: Handler -> bool, h: Handler)
    ensures h in Failures(ds, throws) <==> exists d :: d in ds && d.handler == h && throws(h)
    decreases |ds|
  {
    if |ds| > 0 {
      FailuresAreThrowingCalls(ds[1..], throws, h);
      assert forall d :: d in ds[1..] ==> d in ds;
      assert forall d :: d in ds && d != ds[0] ==> d in ds[1..];
    }
  }

  /** One step of the walk over the subscriptions. */
  lemma DeliveriesStep(subs: seq<Subscription>, k: nat, e: Event)
    requires k < |subs|
    ensures Deliveries(subs[k..], e)
      == (if Matches(subs[k], e) then [Delivery(subs[k].handler, e)] else []) + Deliveries(subs[k + 1..], e)
  {
    assert subs[k..][1..] == subs[k + 1..];
  }

  /** One step of `dispatch`: the subscription at `k` is delivered to when it
      matches, and reported when its handler throws. */
  lemma DispatchStep(subs: seq<Subscription>, k: nat, e: Event, throws: Handler -> bool,
                     done: seq<Delivery>, failed: seq<Handler>, done': seq<Delivery>, failed': seq<Handler>)
    requires k < |subs|
    requires Deliveries(subs, e) == done + Deliveries(subs[k..], e)
    requires failed == Failures(done, throws)
    requires done' == done + (if Matches(subs[k], e) then [Delivery(subs[k].handler, e)] else [])
    requires failed' == failed + (if Matches(subs[k], e) && throws(subs[k].handler) then [subs[k].handler] else [])
    ensures Deliveries(subs, e) == done' + Deliveries(subs[k + 1..], e)
    ensures failed' == Failures(done', throws)
  {
    var step := if Matches(subs[k], e) then [Delivery(subs[k].handler, e)] else [];
    DeliveriesStep(subs, k, e);
    Associate(done, step, Deliveries(subs[k + 1..], e));
    FailuresAppend(done, step, throws);
    FailuresOfStep(subs[k], e, throws);
  }

  /** A single delivery is reported exactly when its handler throws. */
  lemma FailuresOfStep(sub: Subscription, e: Event, throws: Handler -> bool)
    ensures Failures(if Matches(sub, e) then [Delivery(sub.handler, e)] else [], throws)
         == if Matches(sub, e) && throws(sub.handler) then [sub.handler] else []
  {
    if Matches(sub, e) {
      var ds := [Delivery(sub.handler, e)];
      assert ds[1..] == [];
    }
  }

  lemma FailuresAppend(a: seq<Delivery>, b: seq<Delivery>, throws: Handler -> bool)
    ensures Failures(a + b, throws) == Failures(a, throws) + Failures(b, throws)
  {
    if |a| > 0 {
      assert (a + b)[1..] == a[1..] + b;
      FailuresAppend(a[1..], b, throws);
    } else {
      assert a + b == b;
    }
  }

  /** The calls a series of dispatches makes, one event after another. */
  function Broadcast(subs: seq<Subscription>, events: seq<Event>): seq<Delivery> {
    if |events| == 0 then [] else Broadcast(subs, events[..|events| - 1]) + Deliveries(subs, events[|events| - 1])
  }

  lemma BroadcastOne(subs: seq<Subscription>, e: Event)
    ensures Broadcast(subs, [e]) == Deliveries(subs, e)
  {
    assert [e][..0] == [];
  }

  lemma BroadcastAppend(subs: seq<Subscription>, es: seq<Event>, e: Event)
    ensures Broadcast(subs, es + [e]) == Broadcast(subs, es) + Deliveries(subs, e)
  {
    assert (es + [e])[..|es|] == es;
  }

  lemma BroadcastPrefix(subs: seq<Subscription>, events: seq<Event>, k: nat)
    requires k < |events|
    ensures Broadcast(subs, events[..k + 1]) == Broadcast(subs, events[..k]) + Deliveries(subs, events[k])
  {
    assert events[..k + 1] == events[..k] + [events[k]];
    BroadcastAppend(subs, events[..k], events[k]);
  }

  function Tokens(subs: seq<Subscription>): set<nat> {
    set i | 0 <= i < |subs| :: subs[i].token
  }

  /** A subscription's handler is called iff the subscription matches. */
  lemma {:induction false} DeliveredIffMatches(subs: seq<Subscription>, e: Event, i: nat)
    requires i < |subs|
    requires forall j :: 0 <= j < |subs| ==> subs[j].handler == subs[i].handler ==> j == i
    ensures Delivery(subs[i].handler, e) in Deliveries(subs, e) <==> Matches(subs[i], e)
    decreases |subs|
  {
    if i == 0 {
      if !Matches(subs[0], e) {
        NotDeliveredWithoutSubscription(subs[1..], e, subs[0].handler);
      }
    } else {
      DeliveredIffMatches(subs[1..], e, i - 1);
    }
  }

  lemma {:induction false} NotDeliveredWithoutSubscription(subs: seq<Subscription>, e: Event, h: Handler)
    requires forall j :: 0 <= j < |subs| ==> subs[j].handler != h
    ensures Delivery(h, e) !in Deliveries(subs, e)
    decreases |subs|
  {
    if |subs| > 0 {
      NotDeliveredWithoutSubscription(subs[1..], e, h);
    }
  }

  /** The number of calls a handler gets is the number of its matching
      subscriptions: subscribing the same handler twice doubles its calls. */
  function MatchingCount(subs: seq<Subscription>, e: Event, h: Handler): nat {
    if |subs| == 0 then 0
    else (if subs[0].handler == h && Matches(subs[0], e) then 1 else 0) + MatchingCount(subs[1..], e, h)
  }

  function CallCount(ds: seq<Delivery>, h: Handler): nat {
    if |ds| == 0 then 0 else (if ds[0].handler == h then 1 else 0) + CallCount(ds[1..], h)
  }

  lemma CallCountAppend(a: seq<Delivery>, b: seq<Delivery>, h: Handler)
    ensures CallCount(a + b, h) == CallCount(a, h) + CallCount(b, h)
  {
    if |a| > 0 {
      assert (a + b)[1..] == a[1..] + b;
      CallCountAppend(a[1..], b, h);
    } else {
      assert a + b == b;
    }
  }

  lemma {:induction false} CallsPerMatchingSubscription(subs: seq<Subscription>, e: Event, h: Handler)
    ensures CallCount(Deliveries(subs, e), h) == MatchingCount(subs, e, h)
    decreases |subs|
  {
    if |subs| > 0 {
      CallsPerMatchingSubscription(subs[1..], e, h);
      var head := if Matches(subs[0], e) then [Delivery(subs[0].handler, e)] else [];
      CallCountAppend(head, Deliveries(subs[1..], e), h);
      assert head != [] ==> head[1..] == [];
    }
  }

  class EventDispatcher {
    /** The subscription set, in insertion order. */
    var subscriptions: seq<Subscription>
    var nextToken: nat
    /** Every handler call made so far. */
    var log: seq<Delivery>

    ghost predicate Valid()
      reads this
    {
      && (forall i :: 0 <= i < |subscriptions| ==> subscriptions[i].token < nextToken)
      && DistinctTokens(subscriptions)
    }

    constructor()
      ensures Valid() && subscriptions == [] && log == []
    {
      subscriptions := [];
      nextToken := 0;
      log := [];
    }

    /** `dispatch(event)`: every matching subscription's handler runs, in
        order; a throwing handler is reported and the walk goes on. */
    method Dispatch(e: Event, throws: Handler -> bool) returns (failed: seq<Handler>)
      modifies this
      ensures subscriptions == old(subscriptions) && nextToken == old(nextToken)
      ensures log == old(log) + Deliveries(subscriptions, e)
      ensures failed == Failures(Deliveries(subscriptions, e), throws)
    {
      var subs := subscriptions;
      failed := [];
      var done: seq<Delivery> := [];
      var k := 0;
      while k < |subs|
        invariant 0 <= k <= |subs|
        invariant subscriptions == subs && nextToken == old(nextToken)
        invariant Deliveries(subs, e) == done + Deliveries(subs[k..], e)
        invariant log == old(log) + done
        invariant failed == Failures(done, throws)
      {
        var sub := subs[k];
        ghost var done0, failed0 := done, failed;
        if Matches(sub, e) {
          var d := Delivery(sub.handler, e);
          Associate(old(log), done, [d]);
          log := log + [d];
          done := done + [d];
          if throws(sub.handler) {
            failed := failed + [sub.handler];
          }
        }
        DispatchStep(subs, k, e, throws, done0, failed0, done, failed);
        k := k + 1;
      }
      assert Deliveries(subs[k..], e) == [];
      assert done + [] == done;
    }

    /** Dispatches `events` one after another. */
    method DispatchAll(events: seq<Event>, throws: Handler -> bool)
      modifies this
      ensures subscriptions == old(subscriptions) && nextToken == old(nextToken)
      ensures log == old(log) + Broadcast(subscriptions, events)
    {
      ghost var done: seq<Delivery> := [];
      for k := 0 to |events|
        invariant subscriptions == old(subscriptions) && nextToken == old(nextToken)
        invariant done == Broadcast(subscriptions, events[..k])
        invariant log == old(log) + done
      {
        ghost var step := Deliveries(subscriptions, events[k]);
        var _ := Dispatch(events[k], throws);
        Associate(old(log), done, step);
        BroadcastPrefix(subscriptions, events, k);
        done := done + step;
      }
      assert events[..|events|] == events;
    }

    /** `subscribe(filter, eventType, handler)`: a new subscription at the
        end, whatever is already subscribed; the token stands for the
        returned unsubscribe closure. */
    method Subscribe(filter: string, eventType: TypeArg, handler: Handler) returns (token: nat)
      requires Valid()
      modifies this
      ensures Valid()
      ensures subscriptions == old(subscriptions) + [Subscription(token, filter, Normalise(eventType), handler)]
      ensures token !in Tokens(old(subscriptions)) && log == old(log)
    {
      token := nextToken;
      subscriptions := subscriptions + [Subscription(token, filter, Normalise(eventType), handler)];
      nextToken := nextToken + 1;
    }

    /** The unsubscribe closure: removes exactly that subscription; later
        calls find nothing to remove. */
    method Unsubscribe(token: nat)
      requires Valid()
      modifies this
      ensures Valid() && log == old(log) && nextToken == old(nextToken)
      ensures token !in Tokens(subscriptions)
      ensures subscriptions == Without(old(subscriptions), token)
      ensures token !in Tokens(old(subscriptions)) ==> subscriptions == old(subscriptions)
    {
      WithoutRemoves(subscriptions, token);
      if token !in Tokens(subscriptions) {
        WithoutUnknownToken(subscriptions, token);
      }
      WithoutKeepsDistinct(subscriptions, token);
      subscriptions := Without(subscriptions, token);
    }
  }

  /** Every subscription object is a distinct one. */
  predicate DistinctTokens(subs: seq<Subscription>) {
    forall i, j :: 0 <= i < j < |subs| ==> subs[i].token != subs[j].token
  }

  /** The subscriptions other than the one with `token`, in order. */
  function Without(subs: seq<Subscription>, token: nat): (r: seq<Subscription>)
    ensures |r| <= |subs|
    ensures forall i :: 0 <= i < |r| ==> r[i] in subs && r[i].token != token
  {
    if |subs| == 0 then []
    else if subs[0].token == token then Without(subs[1..], token)
    else [subs[0]] + Without(subs[1..], token)
  }

  lemma {:induction false} WithoutRemoves(subs: seq<Subscription>, token: nat)
    ensures token !in Tokens(Without(subs, token))
    ensures forall s :: s in subs && s.token != token ==> s in Without(subs, token)
    decreases |subs|
  {
    if |subs| > 0 {
      WithoutRemoves(subs[1..], token);
      assert forall s :: s in subs && s != subs[0] ==> s in subs[1..];
    }
  }

  /** Unsubscribing a token nobody holds changes nothing. */
  lemma {:induction false} WithoutUnknownToken(subs: seq<Subscription>, token: nat)
    requires token !in Tokens(subs)
    ensures Without(subs, token) == subs
    decreases |subs|
  {
    if |subs| > 0 {
      assert subs[0].token in Tokens(subs);
      assert token !in Tokens(subs[1..]) by {
        forall i | 0 <= i < |subs| - 1
          ensures subs[1..][i].token != token
        {
          assert subs[1..][i] == subs[i + 1];
        }
      }
      WithoutUnknownToken(subs[1..], token);
      assert subs == [subs[0]] + subs[1..];
    }
  }

  lemma {:induction false} WithoutKeepsDistinct(subs: seq<Subscription>, token: nat)
    requires DistinctTokens(subs)
    ensures DistinctTokens(Without(subs, token))
    decreases |subs|
  {
    if |subs| > 0 {
      var w := Without(subs[1..], token);
      assert DistinctTokens(subs[1..]) by {
        forall i, j | 0 <= i < j < |subs| - 1
          ensures subs[1..][i].token != subs[1..][j].token
        {
          assert subs[1..][i] == subs[i + 1] && subs[1..][j] == subs[j + 1];
        }
      }
      WithoutKeepsDistinct(subs[1..], token);
      forall i | 0 <= i < |w|
        ensures w[i].token != subs[0].token
      {
        var j :| 0 <= j < |subs[1..]| && subs[1..][j] == w[i];
        assert subs[1..][j] == subs[j + 1];
      }
      if subs[0].token != token {
        var r := [subs[0]] + w;
        forall i, j | 0 <= i < j < |r|
          ensures r[i].token != r[j].token
        {
          if i > 0 {
            assert r[i] == w[i - 1] && r[j] == w[j - 1];
          } else {
            assert r[j] == w[j - 1];
          }
        }
      }
    }
  }

  /** Two subscriptions of one handler, both matching: two calls per event. */
  method HandlerSubscribedTwiceRunsTwice(h: Handler, e: Event)
  {
    var d := new EventDispatcher();
    var t1 := d.Subscribe("*", AnyType, h);
    assert d.subscriptions[0].token == t1;
    var t2 := d.Subscribe(e.id, OneType(e.kind), h);
    assert t1 != t2;
    var failed := d.Dispatch(e, _ => true);
    var s := d.subscriptions;
    assert Deliveries(s[1..], e) == [Delivery(h, e)] by {
      assert s[1..][1..] == [];
    }
    assert d.log == [Delivery(h, e), Delivery(h, e)];
    assert Failures([Delivery(h, e)], _ => true) == [h];
    assert failed == [h, h];
  }
}
