/** The WebSocket control protocol: clients subscribe to and unsubscribe from channels of
    the event bus, and leave it when they disconnect. */
module ControlProtocol {
  import opened Text
  import opened EventBus

  datatype Message =
    | Ping
    | ChannelsNotAList
    | SubscribeTo(channels: seq<string>)
    | UnsubscribeFrom(channels: seq<string>)
    | UnknownAction(action: string)

  datatype Reply =
    | Pong
    | ChannelsMustBeList
    | SubscribedTo(channels: set<string>)
    | UnsubscribedFrom(channels: set<string>)
    | Unknown(action: string)

  datatype Handled = Handled(bus: Bus, subscribed: set<string>, reply: Reply)

  function Requested(channels: seq<string>): set<string> {
    var targets := (set ch | ch in channels) * (CHANNELS + {"all"});
    if "all" in targets then CHANNELS else targets
  }

  function Handle(b: Bus, q: nat, subscribed: set<string>, m: Message): Handled {
    match m
    case Ping => Handled(b, subscribed, Pong)
    case ChannelsNotAList => Handled(b, subscribed, ChannelsMustBeList)
    case SubscribeTo(channels) =>
      var targets := Requested(channels);
      Handled(AddToAll(b, targets, q), subscribed + targets, SubscribedTo(subscribed + targets))
    case UnsubscribeFrom(channels) =>
      var targets := (set ch | ch in channels) * subscribed;
      Handled(RemoveFromAll(b, targets, q), subscribed - targets, UnsubscribedFrom(subscribed - targets))
    case UnknownAction(action) => Handled(b, subscribed, Unknown(action))
  }

  class Connection {
    const queue: nat
    var subscribed: set<string>

    /** A new client is subscribed to every channel. */
    constructor (queue: nat)
      ensures this.queue == queue && subscribed == CHANNELS
    {
      this.queue := queue;
      subscribed := CHANNELS;
    }

    /** `_handle_control` */
    method HandleControl(bus: Dispatcher, m: Message) returns (reply: Reply)
      modifies this`subscribed, bus`subs
      ensures Handled(bus.Abs(), subscribed, reply) == Handle(old(bus.Abs()), queue, old(subscribed), m)
    {
      hide AddToAll, RemoveFromAll, AddTo, RemoveFrom, Requested;
      ghost var before, was := bus.Abs(), subscribed;
      match m {
        case Ping => return Pong;
        case ChannelsNotAList => return ChannelsMustBeList;
        case UnknownAction(action) => return Unknown(action);
        case SubscribeTo(channels) =>
          var left := Requested(channels);
          ghost var targets, done := left, {};
          NothingAdded(before, queue);
          while left != {}
            invariant done == targets - left && left <= targets
            invariant bus.Abs() == AddToAll(before, done, queue) && subscribed == was + done
            decreases left
          {
            var ch :| ch in left;
            AddedOneMore(before, done, ch, queue);
            bus.AddToChannel(ch, queue);
            subscribed := subscribed + {ch};
            left, done := left - {ch}, done + {ch};
          }
          assert done == targets;
          return SubscribedTo(subscribed);
        case UnsubscribeFrom(channels) =>
          var left := (set ch | ch in channels) * subscribed;
          ghost var targets, done := left, {};
          NothingRemoved(before, queue);
          while left != {}
            invariant done == targets - left && left <= targets
            invariant bus.Abs() == RemoveFromAll(before, done, queue) && subscribed == was - done
            decreases left
          {
            var ch :| ch in left;
            RemovedOneMore(before, done, ch, queue);
            bus.RemoveFromChannel(ch, queue);
            subscribed := subscribed - {ch};
            left, done := left - {ch}, done + {ch};
          }
          assert done == targets;
          return UnsubscribedFrom(subscribed);
      }
    }
  }

  // ---------------------------------------------------------------------------
  // Any number of clients
  // ---------------------------------------------------------------------------

  datatype Client = Client(queue: nat, subscribed: set<string>, connected: bool)

  datatype System = System(bus: Bus, clients: seq<Client>)

  /** `Traffic`: what the rest of the agent does with the bus. */
  datatype Step =
    | Connect
    | Receive(client: nat, message: Message)
    | Disconnect(client: nat)
    | Traffic(action: Action)

  predicate OwnsQueue(s: System, q: nat) {
    exists c :: c in s.clients && c.queue == q
  }

  /** Events are published, queues are read, and other subscribers manage their own queues. */
  predicate Foreign(s: System, a: Action) {
    match a
    case Adding(_, q) => !OwnsQueue(s, q)
    case Removing(_, q) => !OwnsQueue(s, q)
    case Unsubscribing(q) => !OwnsQueue(s, q)
    case _ => true
  }

  function Advance(s: System, step: Step): System {
    match step
    case Connect =>
      System(Subscribe(s.bus, Some({"all"})), s.clients + [Client(|s.bus.queues|, CHANNELS, true)])
    case Receive(c, m) =>
      if c < |s.clients| && s.clients[c].connected then
        var h := Handle(s.bus, s.clients[c].queue, s.clients[c].subscribed, m);
        System(h.bus, s.clients[c := s.clients[c].(subscribed := h.subscribed)])
      else s
    case Disconnect(c) =>
      if c < |s.clients| && s.clients[c].connected then
        System(Unsubscribe(s.bus, s.clients[c].queue), s.clients[c := s.clients[c].(connected := false)])
      else s
    case Traffic(a) => if Foreign(s, a) then s.(bus := Next(s.bus, a)) else s
  }

  function AdvanceAll(s: System, steps: seq<Step>): System
    decreases |steps|
  {
    if steps == [] then s else AdvanceAll(Advance(s, steps[0]), steps[1..])
  }

  /** What the bus knows of a client is what the client was told. */
  ghost predicate Agrees(b: Bus, c: Client) {
    forall ch {:trigger Subscribers(b, ch)} :: c.queue in Subscribers(b, ch) <==> c.connected && ch in c.subscribed
  }

  ghost predicate SystemInv(s: System) {
    && Inv(s.bus)
    && (forall i :: 0 <= i < |s.clients| ==> s.clients[i].queue < |s.bus.queues| && Agrees(s.bus, s.clients[i]))
    && (forall i, j :: 0 <= i < j < |s.clients| ==> s.clients[i].queue != s.clients[j].queue)
  }

  lemma AddedSubscribers(b: Bus, channels: set<string>, q: nat, ch: string)
    ensures Subscribers(AddToAll(b, channels, q), ch) == Subscribers(b, ch) + if ch in channels then {q} else {}
  {
  }

  lemma RemovedSubscribers(b: Bus, channels: set<string>, q: nat, ch: string)
    ensures Subscribers(RemoveFromAll(b, channels, q), ch) == Subscribers(b, ch) - if ch in channels then {q} else {}
  {
  }

  lemma HandleAgrees(b: Bus, c: Client, m: Message, d: Client)
    requires Inv(b) && c.connected && c.queue < |b.queues| && Agrees(b, c) && Agrees(b, d)
    ensures var h := Handle(b, c.queue, c.subscribed, m);
            && Inv(h.bus) && h.bus.queues == b.queues
            && Agrees(h.bus, c.(subscribed := h.subscribed))
            && (d.queue != c.queue ==> Agrees(h.bus, d))
  {
    hide AddToAll, RemoveFromAll, Subscribers, Requested;
    var h := Handle(b, c.queue, c.subscribed, m);
    HandleInv(b, c.queue, c.subscribed, m);
    forall ch
      ensures c.queue in Subscribers(h.bus, ch) <==> ch in h.subscribed
      ensures d.queue != c.queue ==> (d.queue in Subscribers(h.bus, ch) <==> d.queue in Subscribers(b, ch))
    {
      assert c.queue in Subscribers(b, ch) <==> ch in c.subscribed;
      if m.SubscribeTo? {
        AddedSubscribers(b, Requested(m.channels), c.queue, ch);
      } else if m.UnsubscribeFrom? {
        RemovedSubscribers(b, (set x | x in m.channels) * c.subscribed, c.queue, ch);
      }
    }
  }

  lemma HandleInv(b: Bus, q: nat, subscribed: set<string>, m: Message)
    requires Inv(b) && q < |b.queues|
    ensures Inv(Handle(b, q, subscribed, m).bus) && Handle(b, q, subscribed, m).bus.queues == b.queues
    ensures Handle(b, q, subscribed, m).bus.maxQueue == b.maxQueue
  {
    hide Requested;
  }

  lemma TrafficAgrees(b: Bus, a: Action, c: Client)
    requires Inv(b) && c.queue < |b.queues| && Agrees(b, c)
    requires a.Adding? || a.Removing? || a.Unsubscribing? ==> a.queue != c.queue
    ensures Agrees(Next(b, a), c)
  {
    forall ch
      ensures c.queue in Subscribers(Next(b, a), ch) <==> c.queue in Subscribers(b, ch)
    {
    }
  }

  lemma LeaveAgrees(b: Bus, c: Client, d: Client)
    requires Agrees(b, c) && Agrees(b, d)
    ensures Agrees(Unsubscribe(b, c.queue), c.(connected := false))
    ensures d.queue != c.queue ==> Agrees(Unsubscribe(b, c.queue), d)
  {
    hide RemoveFromAll;
    forall ch
      ensures Subscribers(Unsubscribe(b, c.queue), ch) == Subscribers(b, ch) - {c.queue}
    {
      RemovedSubscribers(b, b.subs.Keys, c.queue, ch);
    }
  }

  lemma JoinAgrees(b: Bus, d: Client)
    requires Inv(b)
    ensures Agrees(Subscribe(b, Some({"all"})), Client(|b.queues|, CHANNELS, true))
    ensures d.queue < |b.queues| && Agrees(b, d) ==> Agrees(Subscribe(b, Some({"all"})), d)
  {
    hide AddToAll;
    forall ch
      ensures Subscribers(Subscribe(b, Some({"all"})), ch) == Subscribers(b, ch) + if ch in CHANNELS then {|b.queues|} else {}
    {
      AddedSubscribers(b, CHANNELS, |b.queues|, ch);
      assert Subscribers(Subscribe(b, Some({"all"})), ch) == Subscribers(AddToAll(b, CHANNELS, |b.queues|), ch);
    }
  }

  lemma AdvanceInv(s: System, step: Step)
    requires SystemInv(s)
    ensures SystemInv(Advance(s, step))
  {
    hide Agrees, Handle, Inv, Next, Subscribe, Unsubscribe;
    match step
    case Connect =>
      InvNext(s.bus, Subscribing(Some({"all"})));
      SubscribeNext(s.bus);
      forall i | 0 <= i < |s.clients|
        ensures Agrees(Subscribe(s.bus, Some({"all"})), s.clients[i])
      {
        JoinAgrees(s.bus, s.clients[i]);
      }
      JoinAgrees(s.bus, Client(0, {}, false));
    case Receive(c, m) =>
      if c < |s.clients| && s.clients[c].connected {
        forall i | 0 <= i < |s.clients|
          ensures var h := Handle(s.bus, s.clients[c].queue, s.clients[c].subscribed, m);
                  && Inv(h.bus) && h.bus.queues == s.bus.queues
                  && Agrees(h.bus, s.clients[c].(subscribed := h.subscribed))
                  && (i != c ==> Agrees(h.bus, s.clients[i]))
        {
          HandleAgrees(s.bus, s.clients[c], m, s.clients[i]);
          assert i != c ==> s.clients[i].queue != s.clients[c].queue;
        }
      }
    case Disconnect(c) =>
      if c < |s.clients| && s.clients[c].connected {
        InvNext(s.bus, Unsubscribing(s.clients[c].queue));
        UnsubscribeNext(s.bus, s.clients[c].queue);
        forall i | 0 <= i < |s.clients|
          ensures Agrees(Unsubscribe(s.bus, s.clients[c].queue), s.clients[c].(connected := false))
          ensures i != c ==> Agrees(Unsubscribe(s.bus, s.clients[c].queue), s.clients[i])
        {
          LeaveAgrees(s.bus, s.clients[c], s.clients[i]);
          assert i != c ==> s.clients[i].queue != s.clients[c].queue;
        }
      }
    case Traffic(a) =>
      if Foreign(s, a) {
        InvNext(s.bus, a);
        forall i | 0 <= i < |s.clients|
          ensures Agrees(Next(s.bus, a), s.clients[i])
        {
          assert s.clients[i] in s.clients;
          TrafficAgrees(s.bus, a, s.clients[i]);
        }
      }
  }

  lemma SubscribeNext(b: Bus)
    ensures Subscribe(b, Some({"all"})) == Next(b, Subscribing(Some({"all"})))
    ensures |Subscribe(b, Some({"all"})).queues| == |b.queues| + 1
  {
  }

  lemma UnsubscribeNext(b: Bus, q: nat)
    ensures Unsubscribe(b, q) == Next(b, Unsubscribing(q)) && Unsubscribe(b, q).queues == b.queues
  {
  }

  lemma {:induction false} InvAlways(s: System, steps: seq<Step>)
    requires SystemInv(s)
    ensures SystemInv(AdvanceAll(s, steps))
    decreases |steps|
  {
    hide SystemInv, Advance;
    if steps != [] {
      AdvanceInv(s, steps[0]);
      InvAlways(Advance(s, steps[0]), steps[1..]);
    }
  }

  /** After every sequence of messages by any number of clients, a client's channels are
      exactly those whose subscriber set holds its queue; a client that has disconnected is
      in none. */
  lemma ChannelsAgree(maxQueue: int, steps: seq<Step>, c: nat, ch: string)
    requires c < |AdvanceAll(System(Bus(map[], [], maxQueue), []), steps).clients|
    ensures var s := AdvanceAll(System(Bus(map[], [], maxQueue), []), steps);
            s.clients[c].queue in Subscribers(s.bus, ch) <==> s.clients[c].connected && ch in s.clients[c].subscribed
  {
    var start := System(Bus(map[], [], maxQueue), []);
    InvAlways(start, steps);
  }

  // ---------------------------------------------------------------------------
  // What a message changes
  // ---------------------------------------------------------------------------

  /** A message that asks for a channel of the agent, by its name or by `all`. */
  predicate AsksFor(m: Message, ch: string) {
    m.SubscribeTo? && ch in {"session", "config", "audit", "system"} && (ch in m.channels || "all" in m.channels)
  }

  /** A message that gives up a channel, by its name only. */
  predicate GivesUp(m: Message, ch: string) {
    m.UnsubscribeFrom? && ch in m.channels
  }

  /** For every channel: a client follows it after a message exactly if the message asks for
      it, or it did before and the message does not give it up; the bus changes by the
      client's queue only, and the reply tells the client what it follows. */
  lemma MessageMeaning(b: Bus, q: nat, subscribed: set<string>, m: Message, ch: string)
    ensures var h := Handle(b, q, subscribed, m);
            && (ch in h.subscribed <==> AsksFor(m, ch) || (ch in subscribed && !GivesUp(m, ch)))
            && Subscribers(h.bus, ch) == Subscribers(b, ch) + (if AsksFor(m, ch) then {q} else {})
                                         - (if ch in subscribed && GivesUp(m, ch) then {q} else {})
            && h.bus.queues == b.queues && h.bus.maxQueue == b.maxQueue
            && h.reply == match m
                          case Ping => Pong
                          case ChannelsNotAList => ChannelsMustBeList
                          case SubscribeTo(_) => SubscribedTo(h.subscribed)
                          case UnsubscribeFrom(_) => UnsubscribedFrom(h.subscribed)
                          case UnknownAction(action) => Unknown(action)
  {
    hide Subscribers;
    match m
    case SubscribeTo(channels) =>
      AddedSubscribers(b, Requested(channels), q, ch);
      assert "all" in channels ==> "all" in (set x | x in channels) * (CHANNELS + {"all"});
      assert "all" !in channels ==> "all" !in (set x | x in channels) * (CHANNELS + {"all"});
      assert ch == "all" ==> ch !in CHANNELS;
      assert ch in Requested(channels) <==> AsksFor(m, ch);
    case UnsubscribeFrom(channels) => RemovedSubscribers(b, (set x | x in channels) * subscribed, q, ch);
    case _ =>
  }

  /** A new client gets a queue of its own, in the four channels and no other, and is told so;
      a client that leaves takes its queue out of every channel. Nobody else is affected. */
  lemma ComingAndGoing(s: System, c: nat, ch: string)
    ensures var s' := Advance(s, Connect);
            && s'.bus.queues == s.bus.queues + [[]]
            && s'.clients == s.clients + [Client(|s.bus.queues|, {"session", "config", "audit", "system"}, true)]
            && Subscribers(s'.bus, ch) == Subscribers(s.bus, ch) +
                                          (if ch in {"session", "config", "audit", "system"} then {|s.bus.queues|} else {})
    ensures c < |s.clients| && s.clients[c].connected ==>
              var s' := Advance(s, Disconnect(c));
              && s'.bus.queues == s.bus.queues && s'.clients == s.clients[c := s.clients[c].(connected := false)]
              && Subscribers(s'.bus, ch) == Subscribers(s.bus, ch) - {s.clients[c].queue}
  {
    hide Subscribers, Subscribe, Unsubscribe;
    SubscribeMeaning(s.bus, Some({"all"}), ch);
    if c < |s.clients| {
      MembershipMeaning(s.bus, ch, s.clients[c].queue, ch);
    }
  }

  /** A message of a connected client decides about that client's queue on the bus as it does
      about what the client was told, and about nobody else's. */
  lemma ReceiveMeaning(s: System, c: nat, m: Message, ch: string, d: nat)
    requires SystemInv(s) && c < |s.clients| && s.clients[c].connected
    ensures var s' := Advance(s, Receive(c, m));
            && (s'.clients[c].queue in Subscribers(s'.bus, ch) <==>
                  AsksFor(m, ch) || (s.clients[c].queue in Subscribers(s.bus, ch) && !GivesUp(m, ch)))
            && (d < |s.clients| && d != c ==>
                  s'.clients[d] == s.clients[d]
                  && (s.clients[d].queue in Subscribers(s'.bus, ch) <==> s.clients[d].queue in Subscribers(s.bus, ch)))
            && s'.bus.queues == s.bus.queues
  {
    hide Handle, Subscribers;
    MessageMeaning(s.bus, s.clients[c].queue, s.clients[c].subscribed, m, ch);
    assert Agrees(s.bus, s.clients[c]);
  }

  /** Step `i` is a message of client `c` that asks for the channel, or gives it up. */
  predicate AsksAt(steps: seq<Step>, i: nat, c: nat, ch: string)
    requires i < |steps|
  {
    steps[i].Receive? && steps[i].client == c && AsksFor(steps[i].message, ch)
  }

  predicate GivesUpAt(steps: seq<Step>, i: nat, c: nat, ch: string)
    requires i < |steps|
  {
    steps[i].Receive? && steps[i].client == c && GivesUp(steps[i].message, ch)
  }

  lemma StepSubscribed(s: System, step: Step, c: nat, ch: string)
    requires c < |s.clients| && s.clients[c].connected && step != Disconnect(c)
    ensures var s' := Advance(s, step);
            && c < |s'.clients| && s'.clients[c].connected
            && (ch in s'.clients[c].subscribed <==>
                  AsksAt([step], 0, c, ch) || (ch in s.clients[c].subscribed && !GivesUpAt([step], 0, c, ch)))
  {
    hide Handle, AsksFor, GivesUp, Subscribe, Unsubscribe;
    if step.Receive? && step.client == c {
      MessageMeaning(s.bus, s.clients[c].queue, s.clients[c].subscribed, step.message, ch);
    }
  }

  /** The latest message about the channel asks for it, or none gives up what was there. */
  ghost predicate Decided(steps: seq<Step>, c: nat, ch: string, was: bool) {
    || (exists i :: 0 <= i < |steps| && AsksAt(steps, i, c, ch) && NotGivenUp(steps, i + 1, c, ch))
    || (was && NotGivenUp(steps, 0, c, ch))
  }

  ghost predicate NotGivenUp(steps: seq<Step>, from: nat, c: nat, ch: string) {
    forall j :: from <= j < |steps| ==> !GivesUpAt(steps, j, c, ch)
  }

  lemma NotGivenUpRest(steps: seq<Step>, from: nat, c: nat, ch: string)
    requires steps != []
    ensures NotGivenUp(steps, from + 1, c, ch) <==> NotGivenUp(steps[1..], from, c, ch)
    ensures NotGivenUp(steps, 0, c, ch) <==> !GivesUpAt(steps, 0, c, ch) && NotGivenUp(steps, 1, c, ch)
  {
    var rest := steps[1..];
    assert forall i :: 0 <= i < |rest| ==> (GivesUpAt(rest, i, c, ch) <==> GivesUpAt(steps, i + 1, c, ch));
    assert forall i :: 1 <= i < |steps| ==> (GivesUpAt(steps, i, c, ch) <==> GivesUpAt(rest, i - 1, c, ch));
  }

  lemma DecidedRest(steps: seq<Step>, c: nat, ch: string, was: bool)
    requires steps != []
    ensures Decided(steps, c, ch, was) <==>
            Decided(steps[1..], c, ch, AsksAt(steps, 0, c, ch) || (was && !GivesUpAt(steps, 0, c, ch)))
  {
    hide NotGivenUp, GivesUpAt, AsksFor;
    var rest := steps[1..];
    NotGivenUpRest(steps, 0, c, ch);
    if Decided(steps, c, ch, was) && !(was && NotGivenUp(steps, 0, c, ch)) {
      var i :| 0 <= i < |steps| && AsksAt(steps, i, c, ch) && NotGivenUp(steps, i + 1, c, ch);
      if i > 0 {
        NotGivenUpRest(steps, i, c, ch);
        assert AsksAt(rest, i - 1, c, ch);
      }
    }
    if i :| 0 <= i < |rest| && AsksAt(rest, i, c, ch) && NotGivenUp(rest, i + 1, c, ch) {
      NotGivenUpRest(steps, i + 1, c, ch);
      assert AsksAt(steps, i + 1, c, ch);
    }
  }

  /** As long as a client stays connected its latest message about a channel decides: it
      follows the channel exactly if it has asked for it and not given it up since, or if it
      followed it from the start and never gave it up. */
  lemma {:induction false} LatestMessageDecides(s: System, steps: seq<Step>, c: nat, ch: string)
    requires c < |s.clients| && s.clients[c].connected && Disconnect(c) !in steps
    ensures var end := AdvanceAll(s, steps);
            && c < |end.clients| && end.clients[c].connected
            && (ch in end.clients[c].subscribed <==> Decided(steps, c, ch, ch in s.clients[c].subscribed))
    decreases |steps|
  {
    hide Advance, AsksFor, GivesUp;
    if steps != [] {
      var step, rest := steps[0], steps[1..];
      assert step in steps && forall x :: x in rest ==> x in steps;
      StepSubscribed(s, step, c, ch);
      LatestMessageDecides(Advance(s, step), rest, c, ch);
      DecidedRest(steps, c, ch, ch in s.clients[c].subscribed);
      assert AsksAt([step], 0, c, ch) <==> AsksAt(steps, 0, c, ch);
      assert GivesUpAt([step], 0, c, ch) <==> GivesUpAt(steps, 0, c, ch);
    }
  }

  // ---------------------------------------------------------------------------
  // After a disconnection
  // ---------------------------------------------------------------------------

  predicate Gone(s: System, c: nat) {
    c < |s.clients| && !s.clients[c].connected
  }

  lemma GoneStep(s: System, step: Step, c: nat)
    requires SystemInv(s) && Gone(s, c)
    ensures Gone(Advance(s, step), c) && Advance(s, step).clients[c] == s.clients[c]
    ensures s.clients[c].queue < |Advance(s, step).bus.queues|
    ensures step != Traffic(Consuming(s.clients[c].queue)) ==>
              Advance(s, step).bus.queues[s.clients[c].queue] == s.bus.queues[s.clients[c].queue]
    ensures |Advance(s, step).bus.queues[s.clients[c].queue]| <= |s.bus.queues[s.clients[c].queue]|
  {
    var q := s.clients[c].queue;
    assert Agrees(s.bus, s.clients[c]);
    if step.Receive? && step.client < |s.clients| && s.clients[step.client].connected {
      var d := s.clients[step.client];
      HandleInv(s.bus, d.queue, d.subscribed, step.message);
    }
    assert forall ch :: q !in Subscribers(s.bus, ch);
  }

  /** Nothing published later reaches the queue of a client that has left: its queue only
      shrinks, by being read. */
  lemma {:induction false} NothingAfterLeaving(s: System, steps: seq<Step>, c: nat)
    requires SystemInv(s) && Gone(s, c)
    ensures var end := AdvanceAll(s, steps);
            && SystemInv(end) && Gone(end, c) && end.clients[c] == s.clients[c]
            && |end.bus.queues[s.clients[c].queue]| <= |s.bus.queues[s.clients[c].queue]|
            && ((forall x :: x in steps ==> x != Traffic(Consuming(s.clients[c].queue))) ==>
                  end.bus.queues[s.clients[c].queue] == s.bus.queues[s.clients[c].queue])
    decreases |steps|
  {
    hide Advance, Agrees;
    if steps != [] {
      AdvanceInv(s, steps[0]);
      GoneStep(s, steps[0], c);
      NothingAfterLeaving(Advance(s, steps[0]), steps[1..], c);
      FirstAndRest(steps, Traffic(Consuming(s.clients[c].queue)));
    }
  }

  lemma FirstAndRest(steps: seq<Step>, step: Step)
    requires steps != []
    ensures (forall x :: x in steps ==> x != step) ==> steps[0] != step && forall x :: x in steps[1..] ==> x != step
  {
    if forall x :: x in steps ==> x != step {
      assert steps[0] in steps;
      assert forall x :: x in steps[1..] ==> x in steps;
    }
  }
}
