/** The event bus: per-subscriber bounded queues, fanned out by channel.

    Queues are told apart by number; `queues[q]` is what queue `q` still holds. */
module EventBus {
  import opened Text

  datatype Event = Event(channel: string, eventType: string, data: string, timestamp: string)

  const CHANNELS := {"session", "config", "audit", "system"}

  datatype Bus = Bus(subs: map<string, set<nat>>, queues: seq<seq<Event>>, maxQueue: int)

  // ---------------------------------------------------------------------------
  // Operations
  // ---------------------------------------------------------------------------

  function Subscribers(b: Bus, channel: string): set<nat> {
    if channel in b.subs then b.subs[channel] else {}
  }

  /** A queue is full only if its bound is positive. */
  predicate Full(b: Bus, q: nat) {
    q < |b.queues| && b.maxQueue > 0 && |b.queues[q]| >= b.maxQueue
  }

  /** No channels, an empty set of channels, or one with `all`, stands for every channel. */
  function Targets(channels: Option<set<string>>): set<string> {
    if channels.Some? && channels.value != {} && "all" !in channels.value then channels.value else CHANNELS
  }

  function AddTo(b: Bus, channel: string, q: nat): Bus {
    b.(subs := b.subs[channel := Subscribers(b, channel) + {q}])
  }

  function AddToAll(b: Bus, channels: set<string>, q: nat): Bus {
    b.(subs := map ch | ch in b.subs.Keys + channels :: Subscribers(b, ch) + if ch in channels then {q} else {})
  }

  function Subscribe(b: Bus, channels: Option<set<string>>): Bus {
    AddToAll(b, Targets(channels), |b.queues|).(queues := b.queues + [[]])
  }

  function RemoveFrom(b: Bus, channel: string, q: nat): Bus {
    if channel in b.subs then b.(subs := b.subs[channel := b.subs[channel] - {q}]) else b
  }

  function RemoveFromAll(b: Bus, channels: set<string>, q: nat): Bus {
    b.(subs := map ch | ch in b.subs :: b.subs[ch] - if ch in channels then {q} else {})
  }

  function Unsubscribe(b: Bus, q: nat): Bus {
    RemoveFromAll(b, b.subs.Keys, q)
  }

  /** The subscribers of the event's channel with room left. */
  function Takers(b: Bus, e: Event): set<nat> {
    set q | q in Subscribers(b, e.channel) && !Full(b, q)
  }

  function Deliver(b: Bus, e: Event, takers: set<nat>): seq<seq<Event>> {
    seq(|b.queues|, q requires 0 <= q < |b.queues| => if q in takers then b.queues[q] + [e] else b.queues[q])
  }

  function Publish(b: Bus, e: Event): Bus {
    b.(queues := Deliver(b, e, Takers(b, e)))
  }

  function Consume(b: Bus, q: nat): Bus {
    if q < |b.queues| && b.queues[q] != [] then b.(queues := b.queues[q := b.queues[q][1..]]) else b
  }

  /** Subscribed queues exist, and none exceeds a positive bound. */
  predicate Inv(b: Bus) {
    && (forall ch, q :: ch in b.subs && q in b.subs[ch] ==> q < |b.queues|)
    && (b.maxQueue > 0 ==> forall q :: 0 <= q < |b.queues| ==> |b.queues[q]| <= b.maxQueue)
  }

  // ---------------------------------------------------------------------------
  // What the operations change
  // ---------------------------------------------------------------------------

  /** A new queue joins exactly the channels asked for; asking for none, for the empty set or
      for `all` among others means the four channels of the agent. Nobody else moves. */
  lemma SubscribeMeaning(b: Bus, channels: Option<set<string>>, ch: string)
    ensures var s := Subscribe(b, channels);
            var joins := if channels.None? || channels.value == {} || "all" in channels.value
                         then ch in {"session", "config", "audit", "system"} else ch in channels.value;
            && Subscribers(s, ch) == Subscribers(b, ch) + (if joins then {|b.queues|} else {})
            && s.queues == b.queues + [[]] && s.maxQueue == b.maxQueue
  {
  }

  lemma MembershipMeaning(b: Bus, channel: string, q: nat, ch: string)
    ensures Subscribers(AddTo(b, channel, q), ch) == Subscribers(b, ch) + if ch == channel then {q} else {}
    ensures Subscribers(RemoveFrom(b, channel, q), ch) == Subscribers(b, ch) - if ch == channel then {q} else {}
    ensures Subscribers(Unsubscribe(b, q), ch) == Subscribers(b, ch) - {q}
    ensures AddTo(b, channel, q).queues == RemoveFrom(b, channel, q).queues == Unsubscribe(b, q).queues == b.queues
  {
  }

  /** An event goes to the end of every queue that follows its channel and, if the bound is
      positive, is shorter than the bound; no other queue changes, no subscription does, and
      the number reported is that of the queues that grew. */
  lemma PublishMeaning(b: Bus, e: Event)
    requires Inv(b)
    ensures var p := Publish(b, e);
            && p.subs == b.subs && p.maxQueue == b.maxQueue && |p.queues| == |b.queues|
            && (forall q :: 0 <= q < |b.queues| ==>
                  p.queues[q] ==
                  if q in Subscribers(b, e.channel) && (b.maxQueue <= 0 || |b.queues[q]| < b.maxQueue)
                  then b.queues[q] + [e] else b.queues[q])
            && |Takers(b, e)| == |set q | 0 <= q < |b.queues| && p.queues[q] != b.queues[q]|
  {
    var p := Publish(b, e);
    assert forall q :: 0 <= q < |b.queues| ==> |b.queues[q] + [e]| > |b.queues[q]|;
    assert Takers(b, e) == (set q | 0 <= q < |b.queues| && p.queues[q] != b.queues[q]);
  }

  // ---------------------------------------------------------------------------
  // Runs
  // ---------------------------------------------------------------------------

  datatype Action =
    | Subscribing(channels: Option<set<string>>)
    | Adding(channel: string, queue: nat)
    | Removing(channel: string, queue: nat)
    | Unsubscribing(queue: nat)
    | Publishing(event: Event)
    | Consuming(queue: nat)

  /** Adding and removing concern queues that exist. */
  function Next(b: Bus, a: Action): Bus {
    match a
    case Subscribing(channels) => Subscribe(b, channels)
    case Adding(ch, q) => if q < |b.queues| then AddTo(b, ch, q) else b
    case Removing(ch, q) => RemoveFrom(b, ch, q)
    case Unsubscribing(q) => Unsubscribe(b, q)
    case Publishing(e) => Publish(b, e)
    case Consuming(q) => Consume(b, q)
  }

  function Run(b: Bus, actions: seq<Action>): Bus
    decreases |actions|
  {
    if actions == [] then b else Run(Next(b, actions[0]), actions[1..])
  }

  /** An event offered to a queue: published on one of its channels while it was subscribed. */
  datatype Offer = Offer(event: Event, dropped: bool)

  function OfferOf(b: Bus, a: Action, q: nat): seq<Offer> {
    if a.Publishing? && q in Subscribers(b, a.event.channel) then [Offer(a.event, Full(b, q))] else []
  }

  function Offers(b: Bus, actions: seq<Action>, q: nat): seq<Offer>
    decreases |actions|
  {
    if actions == [] then [] else OfferOf(b, actions[0], q) + Offers(Next(b, actions[0]), actions[1..], q)
  }

  function ConsumedBy(b: Bus, a: Action, q: nat): seq<Event> {
    if a == Consuming(q) && q < |b.queues| && b.queues[q] != [] then [b.queues[q][0]] else []
  }

  function Consumed(b: Bus, actions: seq<Action>, q: nat): seq<Event>
    decreases |actions|
  {
    if actions == [] then [] else ConsumedBy(b, actions[0], q) + Consumed(Next(b, actions[0]), actions[1..], q)
  }

  function Kept(offers: seq<Offer>): seq<Event> {
    if offers == [] then [] else (if offers[0].dropped then [] else [offers[0].event]) + Kept(offers[1..])
  }

  function Dropped(offers: seq<Offer>): nat {
    if offers == [] then 0 else (if offers[0].dropped then 1 else 0) + Dropped(offers[1..])
  }

  /** What a queue holds; nothing before it exists. */
  function Held(b: Bus, q: nat): seq<Event> {
    if q < |b.queues| then b.queues[q] else []
  }

  lemma InvNext(b: Bus, a: Action)
    requires Inv(b)
    ensures Inv(Next(b, a))
    ensures |Next(b, a).queues| >= |b.queues| && Next(b, a).maxQueue == b.maxQueue
  {
  }

  lemma HeldStep(b: Bus, a: Action, q: nat)
    requires Inv(b)
    ensures ConsumedBy(b, a, q) + Held(Next(b, a), q) == Held(b, q) + Kept(OfferOf(b, a, q))
  {
    var offers := OfferOf(b, a, q);
    assert offers != [] ==> offers[1..] == [];
  }

  lemma {:induction false} KeptAppend(a: seq<Offer>, b: seq<Offer>)
    ensures Kept(a + b) == Kept(a) + Kept(b)
  {
    if a == [] {
      assert a + b == b;
    } else {
      assert (a + b)[1..] == a[1..] + b;
      KeptAppend(a[1..], b);
    }
  }

  lemma {:induction false} KeptOrDropped(offers: seq<Offer>)
    ensures |offers| == |Kept(offers)| + Dropped(offers)
  {
    if offers != [] {
      KeptOrDropped(offers[1..]);
    }
  }

  /** Over every run and for every queue: what was consumed, followed by what is queued, is
      what the queue held followed by the events published on its channels while it was
      subscribed, in order, without exactly those published when it was full. */
  lemma {:induction false} Delivery(b: Bus, actions: seq<Action>, q: nat)
    requires Inv(b)
    ensures Inv(Run(b, actions))
    ensures Consumed(b, actions, q) + Held(Run(b, actions), q) == Held(b, q) + Kept(Offers(b, actions, q))
    decreases |actions|
  {
    hide Inv, Next, OfferOf, ConsumedBy, Held;
    if actions == [] {
      assert Held(b, q) + [] == Held(b, q) && [] + Held(b, q) == Held(b, q);
    } else {
      var a, rest := actions[0], actions[1..];
      var b' := Next(b, a);
      InvNext(b, a);
      HeldStep(b, a, q);
      Delivery(b', rest, q);
      KeptAppend(OfferOf(b, a, q), Offers(b', rest, q));
      Reassociate(ConsumedBy(b, a, q), Consumed(b', rest, q), Held(Run(b', rest), q), Held(b', q),
                  Kept(Offers(b', rest, q)), Held(b, q), Kept(OfferOf(b, a, q)));
    }
  }

  lemma Reassociate(
      c: seq<Event>, k: seq<Event>, end: seq<Event>, h: seq<Event>, o: seq<Event>, before: seq<Event>, now: seq<Event>)
    requires k + end == h + o && c + h == before + now
    ensures c + k + end == before + (now + o)
  {
    assert c + k + end == c + (k + end);
    assert c + (h + o) == (c + h) + o;
    assert before + now + o == before + (now + o);
  }

  /** For a queue created during the run: offered = consumed + queued + dropped, and its length
      never exceeds a positive bound. */
  lemma NothingLost(b: Bus, actions: seq<Action>, q: nat)
    requires Inv(b) && q >= |b.queues|
    ensures var end, offers := Run(b, actions), Offers(b, actions, q);
            && Consumed(b, actions, q) + Held(end, q) == Kept(offers)
            && |offers| == |Consumed(b, actions, q)| + |Held(end, q)| + Dropped(offers)
            && (b.maxQueue > 0 ==> |Held(end, q)| <= b.maxQueue)
  {
    Delivery(b, actions, q);
    KeptOrDropped(Offers(b, actions, q));
    assert [] + Kept(Offers(b, actions, q)) == Kept(Offers(b, actions, q));
    BoundKept(b, actions);
  }

  lemma {:induction false} BoundKept(b: Bus, actions: seq<Action>)
    requires Inv(b)
    ensures Run(b, actions).maxQueue == b.maxQueue
    decreases |actions|
  {
    hide Inv, Next;
    if actions != [] {
      InvNext(b, actions[0]);
      BoundKept(Next(b, actions[0]), actions[1..]);
    }
  }

  // ---------------------------------------------------------------------------
  // The bus object
  // ---------------------------------------------------------------------------

  class Dispatcher {
    var subs: map<string, set<nat>>
    var queues: seq<seq<Event>>
    const maxQueue: int

    function Abs(): Bus
      reads this
    {
      Bus(subs, queues, maxQueue)
    }

    constructor (maxQueue: int := 100)
      ensures Abs() == Bus(map[], [], maxQueue)
    {
      this.maxQueue := maxQueue;
      subs, queues := map[], [];
    }

    method AddToChannel(channel: string, q: nat)
      modifies `subs
      ensures Abs() == AddTo(old(Abs()), channel, q)
    {
      if channel !in subs {
        subs := subs[channel := {}];
      }
      subs := subs[channel := subs[channel] + {q}];
    }

    /** The loop that adds a queue to several channels. */
    method AddToChannels(channels: set<string>, q: nat)
      modifies `subs
      ensures Abs() == AddToAll(old(Abs()), channels, q)
    {
      hide AddToAll, AddTo;
      var left := channels;
      ghost var before, done := Abs(), {};
      NothingAdded(before, q);
      while left != {}
        invariant done == channels - left && left <= channels
        invariant Abs() == AddToAll(before, done, q)
        decreases left
      {
        var ch :| ch in left;
        AddedOneMore(before, done, ch, q);
        AddToChannel(ch, q);
        left, done := left - {ch}, done + {ch};
      }
      assert done == channels;
    }

    method NewSubscription(channels: Option<set<string>>) returns (q: nat)
      modifies this
      ensures q == |old(queues)|
      ensures Abs() == Subscribe(old(Abs()), channels)
    {
      q := |queues|;
      var targets := if channels.Some? && channels.value != {} && "all" !in channels.value then channels.value else CHANNELS;
      AddToChannels(targets, q);
      queues := queues + [[]];
    }

    method RemoveFromChannel(channel: string, q: nat)
      modifies `subs
      ensures Abs() == RemoveFrom(old(Abs()), channel, q)
    {
      if channel in subs {
        subs := subs[channel := subs[channel] - {q}];
      }
    }

    method UnsubscribeQueue(q: nat)
      modifies `subs
      ensures Abs() == Unsubscribe(old(Abs()), q)
    {
      hide RemoveFromAll, RemoveFrom;
      var left := subs.Keys;
      ghost var before, done := Abs(), {};
      NothingRemoved(before, q);
      while left != {}
        invariant done == before.subs.Keys - left && left <= before.subs.Keys
        invariant Abs() == RemoveFromAll(before, done, q)
        decreases left
      {
        var ch :| ch in left;
        RemovedOneMore(before, done, ch, q);
        RemoveFromChannel(ch, q);
        left, done := left - {ch}, done + {ch};
      }
      assert done == before.subs.Keys;
    }

    /** Gives the number of subscribers that took the event. */
    method PublishEvent(e: Event) returns (delivered: nat)
      requires Inv(Abs())
      modifies `queues
      ensures Abs() == Publish(old(Abs()), e)
      ensures delivered == |Takers(old(Abs()), e)|
    {
      delivered := 0;
      ghost var before := Abs();
      var left := if e.channel in subs then subs[e.channel] else {};
      ghost var all, done := left, {};
      while left != {}
        invariant left <= all && done == (set q | q in all - left && !Full(before, q))
        invariant subs == before.subs && delivered == |done|
        invariant queues == Deliver(before, e, done)
        decreases left
      {
        var q :| q in left;
        left := left - {q};
        assert q < |queues| && queues[q] == before.queues[q];
        if !(maxQueue > 0 && |queues[q]| >= maxQueue) {
          queues := queues[q := queues[q] + [e]];
          delivered := delivered + 1;
          done := done + {q};
        }
      }
      assert done == Takers(before, e);
    }

    method Get(q: nat) returns (e: Event)
      requires q < |queues| && queues[q] != []
      modifies `queues
      ensures Abs() == Consume(old(Abs()), q) && [e] == ConsumedBy(old(Abs()), Consuming(q), q)
    {
      e := queues[q][0];
      queues := queues[q := queues[q][1..]];
    }
  }

  lemma SameMap(a: map<string, set<nat>>, b: map<string, set<nat>>)
    requires a.Keys == b.Keys && forall ch :: ch in a ==> a[ch] == b[ch]
    ensures a == b
  {
  }

  lemma NothingAdded(b: Bus, q: nat)
    ensures AddToAll(b, {}, q) == b
  {
    SameMap(AddToAll(b, {}, q).subs, b.subs);
  }

  lemma AddedOneMore(b: Bus, channels: set<string>, ch: string, q: nat)
    ensures AddTo(AddToAll(b, channels, q), ch, q) == AddToAll(b, channels + {ch}, q)
  {
    var one, all := AddTo(AddToAll(b, channels, q), ch, q).subs, AddToAll(b, channels + {ch}, q).subs;
    forall c | c in one
      ensures one[c] == all[c]
    {
      assert c != ch ==> one[c] == AddToAll(b, channels, q).subs[c];
    }
    SameMap(one, all);
  }

  lemma NothingRemoved(b: Bus, q: nat)
    ensures RemoveFromAll(b, {}, q) == b
  {
    SameMap(RemoveFromAll(b, {}, q).subs, b.subs);
  }

  lemma RemovedOneMore(b: Bus, channels: set<string>, ch: string, q: nat)
    ensures RemoveFrom(RemoveFromAll(b, channels, q), ch, q) == RemoveFromAll(b, channels + {ch}, q)
  {
    SameMap(RemoveFrom(RemoveFromAll(b, channels, q), ch, q).subs, RemoveFromAll(b, channels + {ch}, q).subs);
  }
}
