/** The mesh buses, updated in place. */
module Mesh {
  import opened Basics
  import opened Windows
  import opened Mailboxes
  import opened SeenWindow

  class InMemoryMeshBus {
    const peerId: DroneId
    const cap: nat
    var messages: map<string, seq<Envelope>>
    var sequence: int
    var subscriptions: map<DroneId, seq<string>>
    var inboxes: map<DroneId, seq<Envelope>>

    function PatternsOf(id: DroneId): seq<string>
      reads this`subscriptions
    {
      if id in subscriptions then subscriptions[id] else []
    }

    function InboxOf(id: DroneId): seq<Envelope>
      reads this`inboxes
    {
      if id in inboxes then inboxes[id] else []
    }

    function BoxOf(id: DroneId): Mailbox
      reads this`subscriptions, this`inboxes
    {
      Mailbox(PatternsOf(id), InboxOf(id))
    }

    function HistoryOf(topic: string): seq<Envelope>
      reads this`messages
    {
      if topic in messages then messages[topic] else []
    }

    /** No inbox is over its cap. */
    ghost predicate Valid()
      reads this`inboxes, this`messages
    {
      (forall id :: |InboxOf(id)| <= cap) && (forall topic :: |HistoryOf(topic)| <= cap)
    }

    constructor (peerId: DroneId, cap: nat)
      ensures Valid() && this.peerId == peerId && this.cap == cap && sequence == 0
      ensures forall id :: BoxOf(id) == BoxRun([], id, cap)
      ensures forall topic :: HistoryOf(topic) == HistoryRun([], topic, cap)
    {
      this.peerId := peerId;
      this.cap := cap;
      messages := map[];
      sequence := 0;
      subscriptions := map[];
      inboxes := map[];
    }

    method Subscribe(id: DroneId, pattern: string)
      requires Valid()
      modifies this`subscriptions
      ensures Valid()
      ensures forall other :: BoxOf(other) == BoxAfter(old(BoxOf(other)), other, Subscribed(id, pattern), cap)
    {
      if pattern in PatternsOf(id) {
        return;
      }
      subscriptions := subscriptions[id := PatternsOf(id) + [pattern]];
    }

    method NextEnvelope(topic: string, payload: int, timestampMs: int, sender: Option<DroneId>,
                        messageId: Option<string>)
        returns (e: Envelope)
      modifies this`sequence
      ensures sequence == old(sequence) + 1
      ensures e.topic == topic && e.payload == payload && e.timestampMs == timestampMs
      ensures e.senderId == if sender.Some? then sender.value else peerId
      ensures e.messageId == if messageId.Some? && messageId.value != "" then Given(messageId.value)
                             else Stamped(e.senderId, timestampMs, sequence)
    {
      sequence := sequence + 1;
      var resolved := if sender.Some? then sender.value else peerId;
      var id := if messageId.Some? && messageId.value != "" then Given(messageId.value)
                else Stamped(resolved, timestampMs, sequence);
      e := Envelope(topic, payload, timestampMs, resolved, id);
    }

    /** Appends to one inbox, dropping the oldest messages over the cap. */
    method Append(id: DroneId, e: Envelope)
      modifies this`inboxes
      ensures InboxOf(id) == KeepLast(old(InboxOf(id)) + [e], cap)
      ensures forall other :: other != id ==> InboxOf(other) == old(InboxOf(other))
    {
      var inbox := InboxOf(id) + [e];
      ghost var longer, dropped := inbox, 0;
      while |inbox| > cap
        invariant dropped <= |longer| && inbox == longer[dropped..] && (dropped == 0 || |inbox| >= cap)
      {
        inbox := inbox[1..];
        dropped := dropped + 1;
      }
      assert inbox == KeepLast(longer, cap);
      inboxes := inboxes[id := inbox];
    }

    /** Adds a message to every inbox that wants it. */
    method Deliver(e: Envelope)
      modifies this`inboxes
      ensures forall id :: Wanted(PatternsOf(id), e.topic) ==> InboxOf(id) == KeepLast(old(InboxOf(id)) + [e], cap)
      ensures forall id :: !Wanted(PatternsOf(id), e.topic) ==> InboxOf(id) == old(InboxOf(id))
    {
      hide Wanted, KeepLast;
      var subscribers := ListSet(subscriptions.Keys);
      NobodyWants(e.topic);
      for k := 0 to |subscribers|
        invariant forall id :: id in Elements(subscribers[..k]) && Wanted(PatternsOf(id), e.topic) ==>
          InboxOf(id) == KeepLast(old(InboxOf(id)) + [e], cap)
        invariant forall id :: id !in Elements(subscribers[..k]) || !Wanted(PatternsOf(id), e.topic) ==>
          InboxOf(id) == old(InboxOf(id))
      {
        assert Elements(subscribers[..k + 1]) == Elements(subscribers[..k]) + {subscribers[k]};
        assert subscribers[k] !in Elements(subscribers[..k]);
        if Wanted(PatternsOf(subscribers[k]), e.topic) {
          Append(subscribers[k], e);
        }
      }
      assert subscribers[..|subscribers|] == subscribers;
    }

    /** Adds a message to the history of its topic, and to every inbox that wants it. */
    method Remember(e: Envelope)
      requires Valid()
      modifies this`messages, this`inboxes
      ensures Valid()
      ensures forall id :: BoxOf(id) == BoxAfter(old(BoxOf(id)), id, Published(e), cap)
      ensures forall topic :: HistoryOf(topic) == HistoryAfter(old(HistoryOf(topic)), topic, Published(e), cap)
    {
      hide Wanted;
      var kept := HistoryOf(e.topic) + [e];
      if |kept| > cap {
        kept := kept[|kept| - cap..];
      }
      assert kept == KeepLast(HistoryOf(e.topic) + [e], cap);
      hide KeepLast;
      messages := messages[e.topic := kept];
      Deliver(e);
      forall topic ensures |HistoryOf(topic)| <= cap {
        assert topic != e.topic ==> HistoryOf(topic) == old(HistoryOf(topic));
      }
      forall id ensures |InboxOf(id)| <= cap {
        assert |old(InboxOf(id))| <= cap;
      }
    }

    method Publish(topic: string, payload: int, timestampMs: int, sender: Option<DroneId>, messageId: Option<string>)
        returns (e: Envelope)
      requires Valid()
      modifies this
      ensures Valid() && sequence == old(sequence) + 1
      ensures e.topic == topic && e.payload == payload && e.timestampMs == timestampMs
      ensures e.senderId == if sender.Some? then sender.value else peerId
      ensures e.messageId == if messageId.Some? && messageId.value != "" then Given(messageId.value)
                             else Stamped(e.senderId, timestampMs, sequence)
      ensures forall id :: BoxOf(id) == BoxAfter(old(BoxOf(id)), id, Published(e), cap)
      ensures forall t :: HistoryOf(t) == HistoryAfter(old(HistoryOf(t)), t, Published(e), cap)
    {
      hide BoxAfter, HistoryAfter;
      e := NextEnvelope(topic, payload, timestampMs, sender, messageId);
      Remember(e);
    }

    static method SplitInbox(inbox: seq<Envelope>, pattern: string)
        returns (matched: seq<Envelope>, remaining: seq<Envelope>)
      ensures matched == Sift(inbox, pattern, true) && remaining == Sift(inbox, pattern, false)
    {
      hide MatchesTopic;
      matched, remaining := [], [];
      for k := 0 to |inbox|
        invariant matched == Sift(inbox[..k], pattern, true) && remaining == Sift(inbox[..k], pattern, false)
      {
        assert inbox[..k + 1][..k] == inbox[..k];
        if MatchesTopic(pattern, inbox[k].topic) {
          matched := matched + [inbox[k]];
        } else {
          remaining := remaining + [inbox[k]];
        }
      }
      assert inbox[..|inbox|] == inbox;
    }

    /** Hands out and removes the waiting messages, all or those that match. */
    method Poll(subscriber: Option<DroneId>, wish: Option<string>) returns (got: seq<Envelope>)
      requires Valid()
      modifies this`inboxes
      ensures Valid()
      ensures got == if subscriber.None? then [] else Taken(old(InboxOf(subscriber.value)), wish)
      ensures subscriber.None? ==> forall id :: BoxOf(id) == old(BoxOf(id))
      ensures subscriber.Some? ==>
        forall id :: BoxOf(id) == BoxAfter(old(BoxOf(id)), id, Polled(subscriber.value, wish), cap)
    {
      hide Sift, Wanted, KeepLast;
      if subscriber.None? {
        return [];
      }
      var id := subscriber.value;
      var inbox := InboxOf(id);
      LeftShorter(inbox, wish);
      if wish.None? {
        inboxes := inboxes[id := []];
        assert forall other :: other != id ==> InboxOf(other) == old(InboxOf(other));
        return inbox;
      }
      var remaining;
      got, remaining := SplitInbox(inbox, wish.value);
      inboxes := inboxes[id := remaining];
      assert forall other :: other != id ==> InboxOf(other) == old(InboxOf(other));
    }

    method History(topic: string) returns (kept: seq<Envelope>)
      ensures kept == HistoryOf(topic)
    {
      kept := HistoryOf(topic);
    }
  }

  lemma NobodyWants(topic: string)
    ensures !Wanted([], topic)
  {}

  /** The mailbox after a list of messages has been remembered. */
  function BoxAfterAll(box: Mailbox, me: DroneId, envelopes: seq<Envelope>, cap: nat): Mailbox {
    if envelopes == [] then box
    else BoxAfter(BoxAfterAll(box, me, envelopes[..|envelopes| - 1], cap), me, Published(envelopes[|envelopes| - 1]),
                  cap)
  }

  lemma BoxMore(box: Mailbox, me: DroneId, envelopes: seq<Envelope>, e: Envelope, cap: nat)
    ensures BoxAfterAll(box, me, envelopes + [e], cap)
            == BoxAfter(BoxAfterAll(box, me, envelopes, cap), me, Published(e), cap)
  {
    hide BoxAfter;
    assert (envelopes + [e])[..|envelopes|] == envelopes;
  }

  class LocalPeerMeshBus {
    const bus: InMemoryMeshBus
    const seenCap: nat
    var seenMessageIds: set<MessageId>
    var seenOrder: seq<MessageId>
    /** What was published here and read from the network so far. */
    ghost var traffic: seq<Traffic>

    function Seen(): Window
      reads this`seenMessageIds, this`seenOrder
    {
      Window(seenOrder, seenMessageIds)
    }

    ghost predicate Valid()
      reads this, bus`inboxes, bus`messages
    {
      bus.Valid() && Seen() == WindowRun(traffic, seenCap)
    }

    constructor (bus: InMemoryMeshBus, seenCap: nat)
      requires bus.Valid()
      ensures Valid() && this.bus == bus && this.seenCap == seenCap && traffic == []
    {
      this.bus := bus;
      this.seenCap := seenCap;
      seenMessageIds := {};
      seenOrder := [];
      traffic := [];
    }

    method Admit(id: MessageId)
      modifies this`seenMessageIds, this`seenOrder
      ensures Seen() == Admitted(old(Seen()), id, seenCap)
    {
      seenMessageIds := seenMessageIds + {id};
      seenOrder := seenOrder + [id];
      if |seenOrder| > seenCap {
        var evicted := seenOrder[0];
        seenOrder := seenOrder[1..];
        seenMessageIds := seenMessageIds - {evicted};
      }
    }

    method Publish(topic: string, payload: int, timestampMs: int, sender: Option<DroneId>, messageId: Option<string>)
        returns (e: Envelope)
      requires Valid()
      modifies this, bus
      ensures Valid() && traffic == old(traffic) + [Sent(e.messageId)]
      ensures e.topic == topic && e.payload == payload && e.timestampMs == timestampMs
      ensures forall id :: bus.BoxOf(id) == BoxAfter(old(bus.BoxOf(id)), id, Published(e), bus.cap)
      ensures Seen() == Admitted(old(Seen()), e.messageId, seenCap)
      ensures old(Exact(Seen(), seenCap)) ==> (Exact(Seen(), seenCap) <==> e.messageId !in old(seenMessageIds))
    {
      hide Exact, Admitted, BoxAfter, WindowRun, Accepted, FreshSends;
      e := bus.Publish(topic, payload, timestampMs, sender, messageId);
      if Exact(Seen(), seenCap) {
        AdmittedExactly(Seen(), e.messageId, seenCap);
      }
      Admit(e.messageId);
      RunMore(traffic, Sent(e.messageId), seenCap);
      traffic := traffic + [Sent(e.messageId)];
    }

    /** Reads the packets that came in, lets in the new ones, and hands them out or polls an inbox. While no
        id in the window is published again, two packets or publications of one id that are accepted are
        more than the cap apart, over all calls. */
    method Poll(packets: seq<Envelope>, subscriber: Option<DroneId>, wish: Option<string>)
        returns (got: seq<Envelope>, ghost incoming: seq<Envelope>)
      requires Valid()
      modifies this, bus
      ensures Valid() && traffic == old(traffic) + Arrivals(packets)
      ensures incoming == LetIn(old(traffic), packets, seenCap)
      ensures Accepted(traffic, seenCap) == Accepted(old(traffic), seenCap) + Ids(incoming)
      ensures FreshSends(old(traffic), seenCap) ==>
        FreshSends(traffic, seenCap) && FarApart(Accepted(traffic, seenCap), seenCap)
      ensures subscriber.None? ==> got == incoming
      ensures subscriber.Some? ==>
        got == Taken(BoxAfterAll(old(bus.BoxOf(subscriber.value)), subscriber.value, incoming, bus.cap).inbox, wish)
      ensures forall id ::
        var box := BoxAfterAll(old(bus.BoxOf(id)), id, incoming, bus.cap);
        bus.BoxOf(id) == if subscriber.None? then box else BoxAfter(box, id, Polled(subscriber.value, wish), bus.cap)
    {
      hide BoxAfter, Admitted, Taken, WindowRun, Accepted, FreshSends, FarApart, LetIn;
      var found := Receive(packets);
      incoming := found;
      if FreshSends(old(traffic), seenCap) {
        RepeatsFarApart(traffic, seenCap);
      }
      if subscriber.None? {
        return found, found;
      }
      got := bus.Poll(subscriber, wish);
    }

    /** Lets in the packets whose id is not in the window, one by one. */
    method Receive(packets: seq<Envelope>) returns (incoming: seq<Envelope>)
      requires Valid()
      modifies this, bus
      ensures Valid() && traffic == old(traffic) + Arrivals(packets)
      ensures incoming == LetIn(old(traffic), packets, seenCap)
      ensures Accepted(traffic, seenCap) == Accepted(old(traffic), seenCap) + Ids(incoming)
      ensures FreshSends(old(traffic), seenCap) ==> FreshSends(traffic, seenCap)
      ensures forall id :: bus.BoxOf(id) == BoxAfterAll(old(bus.BoxOf(id)), id, incoming, bus.cap)
    {
      hide BoxAfter, Admitted, WindowRun, Accepted, FreshSends, LetIn, Arrivals;
      incoming := [];
      ghost var start := traffic;
      NothingYet(start, packets, seenCap);
      for k := 0 to |packets|
        invariant Valid() && traffic == start + Arrivals(packets[..k])
        invariant incoming == LetIn(start, packets[..k], seenCap)
        invariant forall id :: bus.BoxOf(id) == BoxAfterAll(old(bus.BoxOf(id)), id, incoming, bus.cap)
      {
        var e := packets[k];
        NextPacket(start, packets, k, seenCap);
        traffic := traffic + [Arrived(e.messageId)];
        if e.messageId in seenMessageIds {
          continue;
        }
        Admit(e.messageId);
        bus.Remember(e);
        forall id
          ensures BoxAfterAll(old(bus.BoxOf(id)), id, incoming + [e], bus.cap)
                  == BoxAfter(BoxAfterAll(old(bus.BoxOf(id)), id, incoming, bus.cap), id, Published(e), bus.cap)
        {
          BoxMore(old(bus.BoxOf(id)), id, incoming, e, bus.cap);
        }
        incoming := incoming + [e];
      }
      assert packets[..|packets|] == packets;
      LetInAccepted(start, packets, seenCap);
    }
  }
}
