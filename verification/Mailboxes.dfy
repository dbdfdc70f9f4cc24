/** What a subscriber of the mesh bus sees: one drop-oldest queue of the messages it asked for, whatever
    happens to the other subscribers. */
module Mailboxes {
  import opened Basics
  import opened Windows

  /** Ids given by the publisher, or stamped by the bus with its own counter. */
  datatype MessageId = Given(text: string) | Stamped(sender: DroneId, timestampMs: int, sequence: int)

  datatype Envelope = Envelope(topic: string, payload: int, timestampMs: int, senderId: DroneId, messageId: MessageId)

  /** A pattern ending in `#` stands for all topics with the same beginning. */
  predicate MatchesTopic(pattern: string, topic: string) {
    if |pattern| > 0 && pattern[|pattern| - 1] == '#' then pattern[..|pattern| - 1] <= topic
    else topic == pattern
  }

  lemma MatchesExactly(pattern: string, topic: string)
    ensures MatchesTopic(pattern + "#", topic) <==> exists rest: string :: topic == pattern + rest
    ensures |pattern| == 0 || pattern[|pattern| - 1] != '#' ==> (MatchesTopic(pattern, topic) <==> topic == pattern)
  {
    var hashed := pattern + "#";
    assert hashed[..|hashed| - 1] == pattern;
    if pattern <= topic {
      assert topic == pattern + topic[|pattern|..];
    }
  }

  predicate Wanted(patterns: seq<string>, topic: string) {
    exists k :: 0 <= k < |patterns| && MatchesTopic(patterns[k], topic)
  }

  /** The messages whose topic does, or does not, match a pattern. */
  function Sift(inbox: seq<Envelope>, pattern: string, matching: bool): seq<Envelope> {
    if inbox == [] then []
    else
      var front := Sift(inbox[..|inbox| - 1], pattern, matching);
      var last := inbox[|inbox| - 1];
      if MatchesTopic(pattern, last.topic) == matching then front + [last] else front
  }

  function Taken(inbox: seq<Envelope>, pattern: Option<string>): seq<Envelope> {
    if pattern.None? then inbox else Sift(inbox, pattern.value, true)
  }

  function Left(inbox: seq<Envelope>, pattern: Option<string>): seq<Envelope> {
    if pattern.None? then [] else Sift(inbox, pattern.value, false)
  }

  datatype Event =
    | Subscribed(id: DroneId, pattern: string)
    | Published(envelope: Envelope)
    | Polled(id: DroneId, wish: Option<string>)

  datatype Mailbox = Mailbox(patterns: seq<string>, inbox: seq<Envelope>)

  /** How an event on the bus changes one mailbox. */
  function BoxAfter(box: Mailbox, me: DroneId, e: Event, cap: nat): Mailbox {
    match e
    case Subscribed(id, pattern) =>
      if id == me && pattern !in box.patterns then box.(patterns := box.patterns + [pattern]) else box
    case Published(envelope) =>
      if Wanted(box.patterns, envelope.topic) then box.(inbox := KeepLast(box.inbox + [envelope], cap)) else box
    case Polled(id, wish) => if id == me then box.(inbox := Left(box.inbox, wish)) else box
  }

  function BoxRun(events: seq<Event>, me: DroneId, cap: nat): Mailbox {
    if events == [] then Mailbox([], [])
    else BoxAfter(BoxRun(events[..|events| - 1], me, cap), me, events[|events| - 1], cap)
  }

  // ----- what goes in, what comes out, what is lost -----

  /** What an event brings to a mailbox, takes from it, and pushes out of it when it is full. */
  function AddressedBy(box: Mailbox, e: Event): seq<Envelope> {
    if e.Published? && Wanted(box.patterns, e.envelope.topic) then [e.envelope] else []
  }

  function DeliveredBy(box: Mailbox, me: DroneId, e: Event): seq<Envelope> {
    if e.Polled? && e.id == me then Taken(box.inbox, e.wish) else []
  }

  function LostBy(box: Mailbox, e: Event, cap: nat): seq<Envelope> {
    if AddressedBy(box, e) != [] && |box.inbox| >= cap then [(box.inbox + [e.envelope])[0]] else []
  }

  /** The messages published while the subscriber wanted them. */
  function Addressed(events: seq<Event>, me: DroneId, cap: nat): seq<Envelope> {
    if events == [] then []
    else
      var front := events[..|events| - 1];
      Addressed(front, me, cap) + AddressedBy(BoxRun(front, me, cap), events[|events| - 1])
  }

  /** The messages its polls returned. */
  function Delivered(events: seq<Event>, me: DroneId, cap: nat): seq<Envelope> {
    if events == [] then []
    else
      var front := events[..|events| - 1];
      Delivered(front, me, cap) + DeliveredBy(BoxRun(front, me, cap), me, events[|events| - 1])
  }

  /** The messages pushed out of a full inbox. */
  function Lost(events: seq<Event>, me: DroneId, cap: nat): seq<Envelope> {
    if events == [] then []
    else
      var front := events[..|events| - 1];
      Lost(front, me, cap) + LostBy(BoxRun(front, me, cap), events[|events| - 1], cap)
  }

  /** A message is addressed to a subscriber exactly when it asked for a matching pattern before, whatever
      else it asked for, polled or missed in between. */
  lemma {:induction false} AddressedExactly(events: seq<Event>, me: DroneId, e: Envelope, cap: nat)
    ensures Addressed(events + [Published(e)], me, cap)
            == Addressed(events, me, cap) + (if AskedFor(events, me, e.topic) then [e] else [])
  {
    hide MatchesTopic;
    assert (events + [Published(e)])[..|events|] == events;
    AskedExactly(events, me, e.topic, cap);
  }

  ghost predicate AskedFor(events: seq<Event>, me: DroneId, topic: string) {
    exists k :: 0 <= k < |events| && events[k].Subscribed? && events[k].id == me
                && MatchesTopic(events[k].pattern, topic)
  }

  lemma {:induction false} AskedExactly(events: seq<Event>, me: DroneId, topic: string, cap: nat)
    ensures Wanted(BoxRun(events, me, cap).patterns, topic) <==> AskedFor(events, me, topic)
    ensures forall p :: p in BoxRun(events, me, cap).patterns ==>
      exists k :: 0 <= k < |events| && events[k].Subscribed? && events[k].id == me && events[k].pattern == p
    decreases |events|
  {
    hide MatchesTopic;
    if events != [] {
      var front, e := events[..|events| - 1], events[|events| - 1];
      AskedExactly(front, me, topic, cap);
      assert forall k :: 0 <= k < |front| ==> front[k] == events[k];
      var before, after := BoxRun(front, me, cap).patterns, BoxRun(events, me, cap).patterns;
      if e.Subscribed? && e.id == me {
        assert events[|events| - 1] == e;
        if e.pattern !in before {
          assert after == before + [e.pattern];
          assert after[|before|] == e.pattern;
          assert forall k :: 0 <= k < |before| ==> after[k] == before[k];
        } else {
          var m :| 0 <= m < |before| && before[m] == e.pattern;
        }
      }
    }
  }

  lemma {:induction false} InboxBounded(events: seq<Event>, me: DroneId, cap: nat)
    ensures |BoxRun(events, me, cap).inbox| <= cap
    decreases |events|
  {
    hide Wanted;
    if events != [] {
      var front, e := events[..|events| - 1], events[|events| - 1];
      InboxBounded(front, me, cap);
      if e.Polled? {
        LeftShorter(BoxRun(front, me, cap).inbox, e.wish);
      }
    }
  }

  /** A poll by pattern takes some messages out and leaves the others. */
  lemma {:induction false} SiftSplits(inbox: seq<Envelope>, pattern: string)
    ensures multiset(Sift(inbox, pattern, true)) + multiset(Sift(inbox, pattern, false)) == multiset(inbox)
    ensures |Sift(inbox, pattern, true)| + |Sift(inbox, pattern, false)| == |inbox|
    ensures forall e :: e in Sift(inbox, pattern, true) <==> e in inbox && MatchesTopic(pattern, e.topic)
    ensures forall e :: e in Sift(inbox, pattern, false) <==> e in inbox && !MatchesTopic(pattern, e.topic)
    decreases |inbox|
  {
    hide MatchesTopic;
    if inbox != [] {
      SiftSplits(inbox[..|inbox| - 1], pattern);
      assert inbox == inbox[..|inbox| - 1] + [inbox[|inbox| - 1]];
    }
  }

  lemma StepBalance(box: Mailbox, me: DroneId, e: Event, cap: nat)
    requires |box.inbox| <= cap
    ensures multiset(box.inbox) + multiset(AddressedBy(box, e))
            == multiset(DeliveredBy(box, me, e)) + multiset(LostBy(box, e, cap))
                + multiset(BoxAfter(box, me, e, cap).inbox)
    ensures |box.inbox| + |AddressedBy(box, e)|
            == |DeliveredBy(box, me, e)| + |LostBy(box, e, cap)| + |BoxAfter(box, me, e, cap).inbox|
  {
    hide Wanted, KeepLast, Sift;
    var inbox := box.inbox;
    if e.Published? {
      PushBalance(inbox, e.envelope, cap);
      assert multiset([e.envelope]) == multiset{e.envelope};
    } else if e.Polled? && e.wish.Some? {
      SiftSplits(inbox, e.wish.value);
    }
  }

  lemma PushBalance(inbox: seq<Envelope>, x: Envelope, cap: nat)
    requires |inbox| <= cap
    ensures var lost := if |inbox| == cap then [(inbox + [x])[0]] else [];
      && multiset(inbox) + multiset{x} == multiset(lost) + multiset(KeepLast(inbox + [x], cap))
      && |inbox| + 1 == |lost| + |KeepLast(inbox + [x], cap)|
  {
    var longer := inbox + [x];
    assert longer == [longer[0]] + longer[1..];
    assert multiset(longer) == multiset(inbox) + multiset{x};
    assert multiset(longer) == multiset([longer[0]]) + multiset(longer[1..]);
  }

  lemma Balance(a: multiset<Envelope>, d: multiset<Envelope>, l: multiset<Envelope>, i: multiset<Envelope>,
                a': multiset<Envelope>, d': multiset<Envelope>, l': multiset<Envelope>, i': multiset<Envelope>)
    requires a == d + l + i && i + a' == d' + l' + i'
    ensures a + a' == (d + d') + (l + l') + i'
  {
    forall x ensures (a + a')[x] == ((d + d') + (l + l') + i')[x] {
      assert (i + a')[x] == (d' + l' + i')[x];
    }
  }

  lemma LeftShorter(inbox: seq<Envelope>, wish: Option<string>)
    ensures |Left(inbox, wish)| <= |inbox|
  {
    hide Sift;
    if wish.Some? {
      SiftSplits(inbox, wish.value);
    }
  }

  /** Every message addressed to a subscriber is delivered, lost to overflow or still waiting, and only one of these. */
  lemma {:induction false} NothingVanishes(events: seq<Event>, me: DroneId, cap: nat)
    ensures multiset(Addressed(events, me, cap))
            == multiset(Delivered(events, me, cap)) + multiset(Lost(events, me, cap))
                + multiset(BoxRun(events, me, cap).inbox)
    ensures |Addressed(events, me, cap)|
            == |Delivered(events, me, cap)| + |Lost(events, me, cap)| + |BoxRun(events, me, cap).inbox|
    decreases |events|
  {
    hide BoxAfter, AddressedBy, DeliveredBy, LostBy;
    if events != [] {
      var front, e := events[..|events| - 1], events[|events| - 1];
      var box := BoxRun(front, me, cap);
      NothingVanishes(front, me, cap);
      InboxBounded(front, me, cap);
      StepBalance(box, me, e, cap);
      Balance(multiset(Addressed(front, me, cap)), multiset(Delivered(front, me, cap)), multiset(Lost(front, me, cap)),
              multiset(box.inbox), multiset(AddressedBy(box, e)), multiset(DeliveredBy(box, me, e)),
              multiset(LostBy(box, e, cap)), multiset(BoxAfter(box, me, e, cap).inbox));
    }
  }

  // ----- order -----

  /** The entries of one list appear in another in the same order. */
  ghost predicate Within(a: seq<Envelope>, b: seq<Envelope>) {
    a == [] || (b != [] && (Within(a, b[..|b| - 1])
                            || (a[|a| - 1] == b[|b| - 1] && Within(a[..|a| - 1], b[..|b| - 1]))))
  }

  lemma {:induction false} WithinSelf(a: seq<Envelope>)
    ensures Within(a, a)
  {
    if a != [] {
      WithinSelf(a[..|a| - 1]);
    }
  }

  lemma WithinMore(a: seq<Envelope>, b: seq<Envelope>, x: Envelope)
    requires Within(a, b)
    ensures Within(a, b + [x]) && Within(a + [x], b + [x])
  {
    assert (b + [x])[..|b|] == b && (a + [x])[..|a|] == a;
  }

  lemma {:induction false} WithinTrans(a: seq<Envelope>, b: seq<Envelope>, c: seq<Envelope>)
    requires Within(a, b) && Within(b, c)
    ensures Within(a, c)
    decreases |c|, |b|
  {
    if a != [] && b != [] {
      var b', c' := b[..|b| - 1], c[..|c| - 1];
      if Within(b, c') {
        WithinTrans(a, b, c');
      } else if Within(a, b') {
        WithinTrans(a, b', c');
      } else {
        WithinTrans(a[..|a| - 1], b', c');
      }
    }
  }

  lemma {:induction false} TailWithin(a: seq<Envelope>)
    requires a != []
    ensures Within(a[1..], a)
    decreases |a|
  {
    if |a| > 1 {
      var front := a[..|a| - 1];
      TailWithin(front);
      WithinMore(front[1..], front, a[|a| - 1]);
      assert front[1..] + [a[|a| - 1]] == a[1..] && front + [a[|a| - 1]] == a;
    }
  }

  lemma {:induction false} SiftWithin(inbox: seq<Envelope>, pattern: string, matching: bool)
    ensures Within(Sift(inbox, pattern, matching), inbox)
    decreases |inbox|
  {
    hide MatchesTopic;
    if inbox != [] {
      var front, last := inbox[..|inbox| - 1], inbox[|inbox| - 1];
      SiftWithin(front, pattern, matching);
      WithinMore(Sift(front, pattern, matching), front, last);
      assert front + [last] == inbox;
    }
  }

  /** The inbox, and so what any poll returns, is in the order of publication. */
  lemma {:induction false} InboxInOrder(events: seq<Event>, me: DroneId, cap: nat, pattern: Option<string>)
    ensures Within(BoxRun(events, me, cap).inbox, Addressed(events, me, cap))
    ensures Within(Taken(BoxRun(events, me, cap).inbox, pattern), Addressed(events, me, cap))
    decreases |events|
  {
    hide Wanted, KeepLast, Within, MatchesTopic;
    var box := BoxRun(events, me, cap);
    if events == [] {
      WithinSelf(box.inbox);
    } else {
      var front, e := events[..|events| - 1], events[|events| - 1];
      InboxInOrder(front, me, cap, pattern);
      InboxBounded(front, me, cap);
      var inbox, addressed := BoxRun(front, me, cap).inbox, Addressed(front, me, cap);
      assert addressed + [] == addressed;
      if e.Published? {
        KeepLastPush(inbox, e.envelope, cap);
        WithinMore(inbox, addressed, e.envelope);
        TailWithin(inbox + [e.envelope]);
        if |inbox| == cap && Wanted(BoxRun(front, me, cap).patterns, e.envelope.topic) {
          WithinTrans((inbox + [e.envelope])[1..], inbox + [e.envelope], addressed + [e.envelope]);
        }
      } else if e.Polled? && e.id == me {
        EmptyWithin(addressed);
        if e.wish.Some? {
          SiftWithin(inbox, e.wish.value, false);
          WithinTrans(Sift(inbox, e.wish.value, false), inbox, addressed);
        }
      }
    }
    if pattern.Some? {
      SiftWithin(box.inbox, pattern.value, true);
      WithinTrans(Sift(box.inbox, pattern.value, true), box.inbox, Addressed(events, me, cap));
    }
  }

  lemma EmptyWithin(b: seq<Envelope>)
    ensures Within([], b)
  {}

  /** The subscriber takes everything whenever it polls. */
  ghost predicate WholePolls(events: seq<Event>, me: DroneId) {
    forall k :: 0 <= k < |events| && events[k].Polled? && events[k].id == me ==> events[k].wish.None?
  }

  /** Polling everything gives the addressed messages in order, the waiting ones last, exactly as long as
      no inbox overflowed; and none does before more than `cap` messages were addressed. */
  lemma {:induction false} DeliveredInOrderExactly(events: seq<Event>, me: DroneId, cap: nat)
    requires WholePolls(events, me)
    ensures Delivered(events, me, cap) + BoxRun(events, me, cap).inbox == Addressed(events, me, cap)
            <==> Lost(events, me, cap) == []
    decreases |events|
  {
    hide Wanted, KeepLast, AddressedBy, DeliveredBy, LostBy, BoxAfter;
    NothingVanishes(events, me, cap);
    if events != [] && Lost(events, me, cap) == [] {
      var front, e := events[..|events| - 1], events[|events| - 1];
      DeliveredInOrderExactly(front, me, cap);
      InboxBounded(front, me, cap);
      assert e.Polled? && e.id == me ==> e.wish.None?;
      StepInOrder(Delivered(front, me, cap), BoxRun(front, me, cap), me, e, cap);
    }
  }

  lemma StepInOrder(before: seq<Envelope>, box: Mailbox, me: DroneId, e: Event, cap: nat)
    requires |box.inbox| <= cap && LostBy(box, e, cap) == [] && (e.Polled? && e.id == me ==> e.wish.None?)
    ensures before + DeliveredBy(box, me, e) + BoxAfter(box, me, e, cap).inbox
        == before + box.inbox + AddressedBy(box, e)
  {
    hide Wanted, KeepLast;
    if e.Published? {
      KeepLastPush(box.inbox, e.envelope, cap);
    }
  }

  lemma {:induction false} LossNeedsOverflow(events: seq<Event>, me: DroneId, cap: nat)
    ensures Lost(events, me, cap) != [] ==> |Addressed(events, me, cap)| > cap
    decreases |events|
  {
    hide Wanted, KeepLast;
    if events != [] {
      var front, e := events[..|events| - 1], events[|events| - 1];
      LossNeedsOverflow(front, me, cap);
      NothingVanishes(front, me, cap);
    }
  }

  // ----- history -----

  function HistoryAfter(kept: seq<Envelope>, topic: string, e: Event, cap: nat): seq<Envelope> {
    if e.Published? && e.envelope.topic == topic then KeepLast(kept + [e.envelope], cap) else kept
  }

  function HistoryRun(events: seq<Event>, topic: string, cap: nat): seq<Envelope> {
    if events == [] then []
    else HistoryAfter(HistoryRun(events[..|events| - 1], topic, cap), topic, events[|events| - 1], cap)
  }

  function PublishedOn(events: seq<Event>, topic: string): seq<Envelope> {
    if events == [] then []
    else
      var e := events[|events| - 1];
      PublishedOn(events[..|events| - 1], topic)
          + (if e.Published? && e.envelope.topic == topic then [e.envelope] else [])
  }

  /** The history of a topic is its last messages, however polls and subscriptions come in between. */
  lemma {:induction false} HistoryIsLatest(events: seq<Event>, topic: string, cap: nat)
    ensures HistoryRun(events, topic, cap) == KeepLast(PublishedOn(events, topic), cap)
    decreases |events|
  {
    if events != [] {
      var front, e := events[..|events| - 1], events[|events| - 1];
      HistoryIsLatest(front, topic, cap);
      if e.Published? && e.envelope.topic == topic {
        KeepLastAgain(PublishedOn(front, topic), e.envelope, cap);
      }
    }
  }
}
