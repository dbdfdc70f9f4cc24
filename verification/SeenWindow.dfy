/** The window of message ids by which a bus recognises messages it has already handled. */
module SeenWindow {
  import opened Basics
  import opened Windows
  import opened Mailboxes

  datatype Window = Window(order: seq<MessageId>, seen: set<MessageId>)

  function Admitted(w: Window, id: MessageId, cap: nat): Window {
    var order, seen := w.order + [id], w.seen + {id};
    if |order| > cap then Window(order[1..], seen - {order[0]}) else Window(order, seen)
  }

  /** The set is exactly the list, which repeats nothing and respects the cap. */
  ghost predicate Exact(w: Window, cap: nat) {
    Distinct(w.order) && Elements(w.order) == w.seen && |w.order| <= cap
  }

  /** Admitting an id keeps the window exact exactly when the id is not in it: a publisher that reuses an
      id still in the window breaks the window. */
  lemma AdmittedExactly(w: Window, id: MessageId, cap: nat)
    requires Exact(w, cap)
    ensures Exact(Admitted(w, id, cap), cap) <==> id !in w.seen
    ensures Admitted(w, id, cap).order == KeepLast(w.order + [id], cap)
  {
    hide Distinct, Elements;
    if id !in w.seen {
      WindowPush(w.order, w.seen, id);
    } else {
      BrokenWindow(w, id, cap);
    }
  }

  lemma BrokenWindow(w: Window, id: MessageId, cap: nat)
    requires Exact(w, cap) && id in w.seen
    ensures !Exact(Admitted(w, id, cap), cap)
  {
    var order := w.order + [id];
    var i :| 0 <= i < |w.order| && w.order[i] == id;
    assert order[i] == order[|order| - 1];
    if |order| > cap {
      if i > 0 {
        assert order[1..][i - 1] == order[1..][|order| - 2];
      } else {
        assert order[1..][|order| - 2] == id && id in Elements(order[1..]);
      }
    }
  }

  // ----- runs -----

  /** A message published here, or a packet read from the network. */
  datatype Traffic = Sent(id: MessageId) | Arrived(id: MessageId)

  function WindowAfter(w: Window, t: Traffic, cap: nat): Window {
    if t.Arrived? && t.id in w.seen then w else Admitted(w, t.id, cap)
  }

  function WindowRun(traffic: seq<Traffic>, cap: nat): Window {
    if traffic == [] then Window([], {})
    else WindowAfter(WindowRun(traffic[..|traffic| - 1], cap), traffic[|traffic| - 1], cap)
  }

  /** The ids published here or let in, in order. */
  function Accepted(traffic: seq<Traffic>, cap: nat): seq<MessageId> {
    if traffic == [] then []
    else
      var front, t := traffic[..|traffic| - 1], traffic[|traffic| - 1];
      if t.Arrived? && t.id in WindowRun(front, cap).seen then Accepted(front, cap) else Accepted(front, cap) + [t.id]
  }

  /** Every id published here is new to the window. */
  ghost predicate FreshSends(traffic: seq<Traffic>, cap: nat) {
    traffic == [] ||
    (FreshSends(traffic[..|traffic| - 1], cap)
     && (traffic[|traffic| - 1].Sent? ==> traffic[|traffic| - 1].id !in WindowRun(traffic[..|traffic| - 1], cap).seen))
  }

  /** The window always holds exactly the last `cap` accepted ids. */
  lemma {:induction false} WindowIsLatest(traffic: seq<Traffic>, cap: nat)
    requires FreshSends(traffic, cap)
    ensures Exact(WindowRun(traffic, cap), cap)
    ensures WindowRun(traffic, cap).order == KeepLast(Accepted(traffic, cap), cap)
    decreases |traffic|
  {
    hide Exact, Admitted;
    if traffic == [] {
      assert Exact(Window([], {}), cap) by {
        EmptyExact(cap);
      }
    } else {
      var front, t := traffic[..|traffic| - 1], traffic[|traffic| - 1];
      WindowIsLatest(front, cap);
      var w := WindowRun(front, cap);
      AdmittedExactly(w, t.id, cap);
      KeepLastAgain(Accepted(front, cap), t.id, cap);
    }
  }

  lemma EmptyExact(cap: nat)
    ensures Exact(Window([], {}), cap)
  {}

  ghost predicate FarApart(ids: seq<MessageId>, cap: nat) {
    forall i, j :: 0 <= i < j < |ids| && ids[i] == ids[j] ==> j - i > cap
  }

  /** An id among the last `cap` accepted ones is not accepted again: two acceptances of one id are more
      than `cap` acceptances apart. */
  lemma {:induction false} RepeatsFarApart(traffic: seq<Traffic>, cap: nat)
    requires FreshSends(traffic, cap)
    ensures FarApart(Accepted(traffic, cap), cap)
    decreases |traffic|
  {
    hide Admitted;
    if traffic != [] {
      var front, t := traffic[..|traffic| - 1], traffic[|traffic| - 1];
      RepeatsFarApart(front, cap);
      WindowIsLatest(front, cap);
      var w, ids := WindowRun(front, cap), Accepted(front, cap);
      if t.id !in w.seen {
        forall i | 0 <= i < |ids| && |ids| - i <= cap ensures ids[i] in w.seen {
          assert w.order[if |ids| > cap then i - (|ids| - cap) else i] == ids[i];
        }
      }
    }
  }

  // ----- packets -----

  function Arrivals(packets: seq<Envelope>): (traffic: seq<Traffic>)
    ensures |traffic| == |packets|
  {
    seq(|packets|, i requires 0 <= i < |packets| => Arrived(packets[i].messageId))
  }

  function Ids(envelopes: seq<Envelope>): seq<MessageId> {
    seq(|envelopes|, i requires 0 <= i < |envelopes| => envelopes[i].messageId)
  }

  /** The packets let in after some traffic: those whose id is not in the window at their turn. */
  function LetIn(traffic: seq<Traffic>, packets: seq<Envelope>, cap: nat): seq<Envelope> {
    if packets == [] then []
    else
      var front, e := packets[..|packets| - 1], packets[|packets| - 1];
      if e.messageId in WindowRun(traffic + Arrivals(front), cap).seen then LetIn(traffic, front, cap)
      else LetIn(traffic, front, cap) + [e]
  }

  lemma ArrivalsMore(traffic: seq<Traffic>, packets: seq<Envelope>)
    requires packets != []
    ensures var front, e := packets[..|packets| - 1], packets[|packets| - 1];
      traffic + Arrivals(packets) == traffic + Arrivals(front) + [Arrived(e.messageId)]
  {}

  /** One more step of traffic. */
  lemma RunMore(traffic: seq<Traffic>, t: Traffic, cap: nat)
    ensures WindowRun(traffic + [t], cap) == WindowAfter(WindowRun(traffic, cap), t, cap)
    ensures Accepted(traffic + [t], cap)
            == if t.Arrived? && t.id in WindowRun(traffic, cap).seen then Accepted(traffic, cap)
               else Accepted(traffic, cap) + [t.id]
    ensures FreshSends(traffic + [t], cap)
            <==> FreshSends(traffic, cap) && (t.Sent? ==> t.id !in WindowRun(traffic, cap).seen)
  {
    hide WindowAfter;
    assert (traffic + [t])[..|traffic|] == traffic;
  }

  lemma NothingYet(traffic: seq<Traffic>, packets: seq<Envelope>, cap: nat)
    ensures traffic + Arrivals(packets[..0]) == traffic && LetIn(traffic, packets[..0], cap) == []
  {}

  lemma NextPacket(traffic: seq<Traffic>, packets: seq<Envelope>, k: nat, cap: nat)
    requires k < |packets|
    ensures var front, e := packets[..k], packets[k];
      var window := WindowRun(traffic + Arrivals(front), cap);
      && traffic + Arrivals(packets[..k + 1]) == traffic + Arrivals(front) + [Arrived(e.messageId)]
      && WindowRun(traffic + Arrivals(packets[..k + 1]), cap) == WindowAfter(window, Arrived(e.messageId), cap)
      && LetIn(traffic, packets[..k + 1], cap)
         == if e.messageId in window.seen then LetIn(traffic, front, cap) else LetIn(traffic, front, cap) + [e]
  {
    hide WindowAfter, WindowRun;
    assert packets[..k + 1][..k] == packets[..k];
    ArrivalsMore(traffic, packets[..k + 1]);
    RunMore(traffic + Arrivals(packets[..k]), Arrived(packets[k].messageId), cap);
  }

  /** A packet is let in exactly when its id is not among the last `cap` accepted ids. */
  lemma AcceptedExactly(traffic: seq<Traffic>, t: Traffic, cap: nat)
    requires FreshSends(traffic, cap)
    ensures Accepted(traffic + [t], cap)
            == if t.Arrived? && t.id in KeepLast(Accepted(traffic, cap), cap) then Accepted(traffic, cap)
               else Accepted(traffic, cap) + [t.id]
  {
    hide WindowAfter, KeepLast, Distinct;
    RunMore(traffic, t, cap);
    WindowIsLatest(traffic, cap);
    assert t.id in Elements(WindowRun(traffic, cap).order) <==> t.id in WindowRun(traffic, cap).order;
  }

  /** What is accepted while packets come in are the ids of those let in, in order. */
  lemma {:induction false} LetInAccepted(traffic: seq<Traffic>, packets: seq<Envelope>, cap: nat)
    ensures Accepted(traffic + Arrivals(packets), cap) == Accepted(traffic, cap) + Ids(LetIn(traffic, packets, cap))
    ensures FreshSends(traffic, cap) <==> FreshSends(traffic + Arrivals(packets), cap)
    decreases |packets|
  {
    hide WindowRun, Accepted, FreshSends;
    if packets == [] {
      assert traffic + Arrivals(packets) == traffic;
      assert Accepted(traffic, cap) + Ids([]) == Accepted(traffic, cap);
    } else {
      var front, e := packets[..|packets| - 1], packets[|packets| - 1];
      LetInAccepted(traffic, front, cap);
      ArrivalsMore(traffic, packets);
      RunMore(traffic + Arrivals(front), Arrived(e.messageId), cap);
      assert Ids(LetIn(traffic, front, cap) + [e]) == Ids(LetIn(traffic, front, cap)) + [e.messageId];
    }
  }

  /** Packet by packet: one is handed out exactly when its id is not among the last `cap` ids accepted up to
      its turn, be it before or among the packets handed out just now. */
  lemma LetInExactly(traffic: seq<Traffic>, packets: seq<Envelope>, e: Envelope, cap: nat)
    requires FreshSends(traffic, cap)
    ensures var before := LetIn(traffic, packets, cap);
      LetIn(traffic, packets + [e], cap)
      == if e.messageId in KeepLast(Accepted(traffic, cap) + Ids(before), cap) then before else before + [e]
  {
    hide WindowRun, KeepLast, Distinct, FreshSends, Accepted;
    LetInAccepted(traffic, packets, cap);
    WindowIsLatest(traffic + Arrivals(packets), cap);
    assert (packets + [e])[..|packets|] == packets;
    var w := WindowRun(traffic + Arrivals(packets), cap);
    assert e.messageId in Elements(w.order) <==> e.messageId in w.order;
  }
}
