/** Two runs of a peer that do not end as one might expect. */
module PeerWitness {
  import opened Basics
  import opened Sorting
  import opened Auction
  import opened Drones
  import opened Consensus
  import opened Rounds
  import opened Heartbeats
  import opened ClaimLedger
  import opened ClaimRuns
  import opened ClaimSafety

  lemma RunMore(s: Ledger, events: seq<Event>, e: Event, me: DroneId)
    ensures RunFrom(s, events + [e], me) == After(RunFrom(s, events, me), e, me)
    ensures AllPossible(s, events + [e], me) <==> AllPossible(s, events, me) && Possible(RunFrom(s, events, me), e)
  {
    hide After, Possible;
    assert (events + [e])[..|events|] == events;
  }

  lemma RunStarts(s: Ledger, me: DroneId)
    ensures RunFrom(s, [], me) == s && AllPossible(s, [], me)
  {}

  lemma ThreeSteps(s: Ledger, a: Event, b: Event, c: Event, me: DroneId)
    ensures RunFrom(s, [a, b, c], me) == After(After(After(s, a, me), b, me), c, me)
    ensures AllPossible(s, [a, b, c], me)
            <==> Possible(s, a) && Possible(After(s, a, me), b) && Possible(After(After(s, a, me), b, me), c)
  {
    hide After, Possible, RunFrom, AllPossible;
    RunStarts(s, me);
    RunMore(s, [], a, me);
    RunMore(s, [] + [a], b, me);
    RunMore(s, [] + [a] + [b], c, me);
    assert [a, b, c] == [] + [a] + [b] + [c];
  }

  /** A map on which all cells are equally uncertain. */
  function Uniform(size: nat): MapView {
    MapView(size, c => 1.0)
  }

  const HOME: Coord := Coord(0, 0)
  const NEAR: Coord := Coord(1, 0)

  // ----- a loser is sent to a contested cell -----

  function FirstClaim(): ClaimRequest {
    ClaimRequest(1, 1, HOME, HOME, 0)
  }

  function SecondClaim(): ClaimRequest {
    ClaimRequest(2, 2, HOME, NEAR, 0)
  }

  function ThirdClaim(): ClaimRequest {
    ClaimRequest(3, 3, NEAR, NEAR, 0)
  }

  /** Three claims are heard, two of them for one cell, and are resolved when they are a delay old. */
  function ThreeClaims(): seq<Event> {
    [ClaimHeard(FirstClaim()), ClaimHeard(SecondClaim()), ClaimHeard(ThirdClaim()),
     ClaimsResolved([[FirstClaim(), SecondClaim()], [ThirdClaim()]], Uniform(2), 1, 1)]
  }

  function Asker(id: DroneId, position: Coord): Drone {
    Drone(id, position, Claiming, None, None, Whole, true, true, 0)
  }

  /** The peer's view when the three claims have been heard. */
  ghost predicate Heard(s: Ledger) {
    && s.index.pending == map[1 := FirstClaim(), 2 := SecondClaim(), 3 := ThirdClaim()]
    && s.index.timestamps == map[1 := 0, 2 := 0, 3 := 0]
    && s.drones == map[1 := Asker(1, HOME), 2 := Asker(2, NEAR), 3 := Asker(3, NEAR)]
    && s.resolved == {} && Fresh(s)
  }

  lemma ThreeHeard(me: DroneId)
    ensures AllPossible(Start(), ThreeClaims()[..3], me) && Heard(RunFrom(Start(), ThreeClaims()[..3], me))
  {
    var a, b, c := ClaimHeard(FirstClaim()), ClaimHeard(SecondClaim()), ClaimHeard(ThirdClaim());
    ThreeSteps(Start(), a, b, c, me);
    assert ThreeClaims()[..3] == [a, b, c];
    hide RunFrom, AllPossible;
    var s := After(After(After(Start(), a, me), b, me), c, me);
    assert s.index.pending == map[1 := FirstClaim(), 2 := SecondClaim(), 3 := ThirdClaim()];
    assert s.index.timestamps == map[1 := 0, 2 := 0, 3 := 0];
    assert s.drones == map[1 := Asker(1, HOME), 2 := Asker(2, NEAR), 3 := Asker(3, NEAR)];
  }

  lemma ThreeMature(s: Ledger)
    requires Heard(s)
    ensures Possible(s, ThreeClaims()[3])
    ensures Unexpired(s, 1, 1).drones == s.drones && Fresh(Unexpired(s, 1, 1))
  {
    hide Fresh, Grouped;
    var live := Unexpired(s, 1, 1);
    assert Expired(s.index, 1, 1) == {};
    assert live.index.pending == s.index.pending;
    assert 1 in live.index.pending && 2 in live.index.pending && 3 in live.index.pending;
    var mature := Mature(live, 1, 1);
    assert live.index.pending[1] in mature && live.index.pending[2] in mature && live.index.pending[3] in mature;
    assert mature == {FirstClaim(), SecondClaim(), ThirdClaim()};
    SameFresh(s, live);
    ThreeGrouped(mature);
  }

  lemma ThreeGrouped(mature: set<ClaimRequest>)
    requires mature == {FirstClaim(), SecondClaim(), ThirdClaim()}
    ensures Grouped(mature, [[FirstClaim(), SecondClaim()], [ThirdClaim()]])
  {
    var groups := [[FirstClaim(), SecondClaim()], [ThirdClaim()]];
    assert groups[0] == [FirstClaim(), SecondClaim()] && groups[1] == [ThirdClaim()];
    forall c ensures c in mature <==> exists g :: 0 <= g < |groups| && c in groups[g] {
      if c in mature {
        assert c in groups[0] || c in groups[1];
      }
    }
  }

  lemma SameFresh(s: Ledger, t: Ledger)
    requires s.processed == t.processed && s.roundId == t.roundId && s.outbox == t.outbox && Fresh(s)
    ensures Fresh(t)
  {}

  /** The loser of the first contest is sent to the cell that the second contest is about. */
  lemma FallbackTakesContestedCell(me: DroneId)
    ensures AllPossible(Start(), ThreeClaims(), me)
    ensures Claimed(RunFrom(Start(), ThreeClaims()[..3], me).drones) == {}
    ensures !SafeView(RunFrom(Start(), ThreeClaims(), me).drones)
  {
    hide AllPossible, RunFrom, Possible, SafeView, Heard;
    ThreeHeard(me);
    var s := RunFrom(Start(), ThreeClaims()[..3], me);
    ThreeMature(s);
    assert ThreeClaims() == ThreeClaims()[..3] + [ThreeClaims()[3]];
    RunMore(Start(), ThreeClaims()[..3], ThreeClaims()[3], me);
    NobodyHolds(s);
    ResolvedView(s, me);
  }

  lemma NobodyHolds(s: Ledger)
    requires Heard(s)
    ensures Claimed(s.drones) == {}
  {}

  lemma ResolvedView(s: Ledger, me: DroneId)
    requires Heard(s) && Fresh(Unexpired(s, 1, 1)) && Unexpired(s, 1, 1).drones == s.drones
    ensures !SafeView(After(s, ThreeClaims()[3], me).drones)
  {
    hide SettleOne, SafeView, Fresh, ResolveConflict, AssignAll, Ranked, Swept;
    var live, view := Unexpired(s, 1, 1), Uniform(2);
    var groups := [[FirstClaim(), SecondClaim()], [ThirdClaim()]];
    assert groups[..1] == [[FirstClaim(), SecondClaim()]] && groups[..1][..0] == [];
    var between := SettleOne(live, [FirstClaim(), SecondClaim()], view, me, 1);
    assert SettleAll(live, groups[..1], view, me, 1) == between;
    NobodyHolds(s);
    LoserGoes(FirstClaim(), SecondClaim(), HOME, NEAR, view);
    FirstGroup(live, view, me);
    var holder := LeadClashes(between, [ThirdClaim()], view, me, 1, 2);
    var t := SettleOne(between, [ThirdClaim()], view, me, 1);
    assert !SafeView(t.drones) by {
      NotSafe(t.drones, 2, holder);
    }
    SweepKeepsDrones(SettleAll(live, groups, view, me, 1));
  }

  lemma NotSafe(drones: map<DroneId, Drone>, a: DroneId, b: DroneId)
    requires a in drones && b in drones && a != b && Active(drones[a]) && Active(drones[b])
    requires !Apart(drones[a], drones[b])
    ensures !SafeView(drones)
  {}

  lemma SweepKeepsDrones(s: Ledger)
    ensures Swept(s).drones == s.drones
  {}

  lemma FirstGroup(s: Ledger, view: MapView, me: DroneId)
    requires Fresh(s) && Claimed(s.drones) == {}
    requires s.drones == map[1 := Asker(1, HOME), 2 := Asker(2, NEAR), 3 := Asker(3, NEAR)]
    requires ResolveConflict([FirstClaim(), SecondClaim()], view, {}).Some?
    requires ResolveConflict([FirstClaim(), SecondClaim()], view, {}).value.assignments
             == [ZoneAssignment(1, HOME, Winner, Whole), ZoneAssignment(2, NEAR, Fallback, Whole)]
    ensures var between := SettleOne(s, [FirstClaim(), SecondClaim()], view, me, 1);
      && Fresh(between) && 2 in between.drones && Active(between.drones[2]) && between.drones[2].claimed == Some(NEAR)
      && Active(Known(between.drones, 3))
  {
    hide SettleOne, ResolveConflict, AssignAll, Fresh, Claimed;
    var assignments := ResolveConflict([FirstClaim(), SecondClaim()], view, {}).value.assignments;
    SettledDrones(s, [FirstClaim(), SecondClaim()], view, me, 1);
    AssignAllAt(s.drones, assignments, me, 2);
    AssignAllAt(s.drones, assignments, me, 3);
    assert assignments[1].droneId == 2;
  }

  lemma RankedPair(a: ClaimRequest, b: ClaimRequest)
    requires ClaimLe(a, b)
    ensures Ranked([a, b]) == [a, b]
  {
    hide ClaimLe;
    var rest := [a, b][1..];
    assert rest == [b] && rest[1..] == [];
    assert Sort(rest, ClaimLe) == [b];
  }

  lemma WinnerAndLoser(a: ClaimRequest, b: ClaimRequest, view: MapView, claimed: set<Coord>)
    requires ClaimLe(a, b) && !Ties(a, b, a.cell)
    ensures ResolveConflict([a, b], view, claimed).Some?
    ensures ResolveConflict([a, b], view, claimed).value.assignments
            == [ZoneAssignment(a.droneId, a.cell, Winner, Whole), FallbackFor(b, view, claimed + {a.cell})]
  {
    hide ClaimLe, Ties, Ranked, FallbackFor;
    RankedPair(a, b);
    assert [a, b][1..] == [b] && [b][1..] == [];
    assert Fallbacks([b], view, claimed + {a.cell}) == [FallbackFor(b, view, claimed + {a.cell})] + [];
  }

  lemma LoserGoes(first: ClaimRequest, second: ClaimRequest, home: Coord, near: Coord, view: MapView)
    requires home == Coord(0, 0) && near == Coord(1, 0) && view.size == 2 && forall c :: view.entropy(c) == 1.0
    requires first == ClaimRequest(1, 1, home, home, 0) && second == ClaimRequest(2, 2, home, near, 0)
    ensures ResolveConflict([first, second], view, {}).Some?
    ensures ResolveConflict([first, second], view, {}).value.assignments
            == [ZoneAssignment(1, home, Winner, Whole), ZoneAssignment(2, near, Fallback, Whole)]
  {
    hide SelectNextZone, Precedes, ResolveConflict, Ties, ClaimLe, DistSquared;
    FirstIsNearer(first, second);
    WinnerAndLoser(first, second, view, {});
    SelectionIsBest(view, {} + {home}, near, false, near);
    NearestIsOwn(view, near, SelectNextZone(view, {} + {home}, near, false).value);
  }

  lemma FirstIsNearer(first: ClaimRequest, second: ClaimRequest)
    requires first.position == first.cell == second.cell && second.position != second.cell
    requires first.timestampMs == second.timestampMs
    ensures ClaimLe(first, second) && !Ties(first, second, first.cell)
  {
    SquarePositive(second.position.x - second.cell.x);
    SquarePositive(second.position.y - second.cell.y);
  }

  lemma NearestIsOwn(view: MapView, near: Coord, other: Coord)
    requires forall c :: view.entropy(c) == 1.0
    requires other == near || Precedes(view, near, false, other, near)
    ensures other == near
  {
    assert DistSquared(near, near) == 0;
    if other != near {
      SquarePositive(near.x - other.x);
      SquarePositive(near.y - other.y);
    }
  }

  lemma SquarePositive(n: int)
    ensures n * n >= 0 && (n != 0 ==> n * n > 0)
  {}

  // ----- a drone falls silent twice -----

  /** One claim is heard and resolved: the claimant holds the cell, and nothing is left waiting. */
  lemma ClaimAndWin(s: Ledger, c: ClaimRequest, view: MapView, delayMs: int, me: DroneId)
    requires LedgerInv(s) && s.index.pending == map[] && c.claimId !in s.resolved && delayMs > 0
    requires Active(Known(s.drones, c.droneId))
    ensures var heard := After(s, ClaimHeard(c), me);
      var e := ClaimsResolved([[c]], view, delayMs, c.timestampMs + delayMs);
      var t := After(heard, e, me);
      && Possible(heard, e) && t.index.pending == map[] && t.resolved <= s.resolved + {c.claimId}
      && t.released == s.released && t.heard == s.heard && t.silent == s.silent
      && (exists round: RoundPayload :: round.releasedBy.None? && t.outbox == s.outbox + [round])
      && Known(t.drones, c.droneId).alive && Known(t.drones, c.droneId).claimed == Some(c.cell)
  {
    hide LedgerInv, Fresh, AssignOne, Largest, SettleOne, Expired, Dropped, Mature, Grouped;
    var heard := After(s, ClaimHeard(c), me);
    var nowMs := c.timestampMs + delayMs;
    StepKeeps(s, ClaimHeard(c), me);
    OnlyClaim(s, c);
    OneMature(heard, c, delayMs);
    var live := Unexpired(heard, delayMs, nowMs);
    var settled := SettleAll(live, [[c]], view, me, nowMs);
    OneGroup(live, [c], view, me, nowMs);
    InvFresh(heard);
    SameFresh(heard, live);
    OneClaimSettled(live, c, view, me, nowMs);
    SweepKeepsMost(settled, c.claimId);
  }

  lemma InvFresh(s: Ledger)
    requires LedgerInv(s)
    ensures Fresh(s)
  {}

  lemma OneGroup(s: Ledger, group: seq<ClaimRequest>, view: MapView, me: DroneId, nowMs: int)
    ensures SettleAll(s, [group], view, me, nowMs) == SettleOne(s, group, view, me, nowMs)
  {
    hide SettleOne;
    assert [group][..0] == [];
  }

  lemma OnlyClaim(s: Ledger, c: ClaimRequest)
    requires LedgerInv(s) && s.index.pending == map[]
    ensures Filed(s.index, c).pending == map[c.claimId := c]
    ensures Filed(s.index, c).timestamps == map[c.claimId := c.timestampMs]
  {
    assert s.index.timestamps.Keys == {};
  }

  lemma SweepKeepsMost(s: Ledger, id: ClaimId)
    requires s.index.pending.Keys <= {id} && id in s.resolved
    ensures Swept(s).index.pending == map[] && Swept(s).resolved <= s.resolved
    ensures Swept(s).drones == s.drones && Swept(s).outbox == s.outbox
    ensures Swept(s).released == s.released && Swept(s).heard == s.heard && Swept(s).silent == s.silent
  {}

  lemma OneMature(heard: Ledger, c: ClaimRequest, delayMs: int)
    requires heard.index.pending == map[c.claimId := c] && heard.index.timestamps == map[c.claimId := c.timestampMs]
    requires c.claimId !in heard.resolved && delayMs > 0
    ensures Expired(heard.index, delayMs, c.timestampMs + delayMs) == {}
    ensures Unexpired(heard, delayMs, c.timestampMs + delayMs).index.pending == heard.index.pending
    ensures Grouped(Mature(Unexpired(heard, delayMs, c.timestampMs + delayMs), delayMs, c.timestampMs + delayMs), [[c]])
  {
    var nowMs := c.timestampMs + delayMs;
    assert Expired(heard.index, delayMs, nowMs) == {};
    var live := Unexpired(heard, delayMs, nowMs);
    assert live.index.pending == heard.index.pending;
    var mature := Mature(live, delayMs, nowMs);
    assert live.index.pending[c.claimId] in mature;
    assert [[c]][0] == [c];
    forall x ensures x in mature <==> exists g :: 0 <= g < |[[c]]| && x in [[c]][g] {
      if x in mature {
        assert x in [[c]][0];
      }
    }
  }

  lemma OneClaimSettled(s: Ledger, c: ClaimRequest, view: MapView, me: DroneId, nowMs: int)
    requires Fresh(s) && Active(Known(s.drones, c.droneId))
    ensures var t := SettleOne(s, [c], view, me, nowMs);
      && t.released == s.released && t.heard == s.heard && t.silent == s.silent
          && t.resolved == s.resolved + {c.claimId}
      && (exists round: RoundPayload :: round.releasedBy.None? && t.outbox == s.outbox + [round])
      && t.index.pending.Keys <= s.index.pending.Keys
      && Known(t.drones, c.droneId).alive && Known(t.drones, c.droneId).claimed == Some(c.cell)
  {
    hide Fresh, Evicted;
    SettleOneFrame(s, [c], view, me, nowMs);
    var assignments := [ZoneAssignment(c.droneId, c.cell, Winner, Whole)];
    assert assignments[..0] == [];
    assert IdsOf([c]) == {c.claimId} by {
      assert [c][0] == c;
    }
    SettledDrones(s, [c], view, me, nowMs);
    assert SettleOne(s, [c], view, me, nowMs).drones == AssignOne(s.drones, assignments[0], me);
  }

  function BoutClaim(id: ClaimId, atMs: int): ClaimRequest {
    ClaimRequest(id, 1, HOME, HOME, atMs)
  }

  /** Drone 1 beats, claims a cell and wins it. */
  function WinEvents(id: ClaimId, atMs: int): seq<Event> {
    [BeatHeard(1, HOME, atMs), ClaimHeard(BoutClaim(id, atMs)),
     ClaimsResolved([[BoutClaim(id, atMs)]], Uniform(1), 1000, atMs + 1000)]
  }

  /** Its silence is noticed six seconds after the beat. */
  function SilenceAt(atMs: int): Event {
    SilenceFound([1], atMs + 6000, 5000)
  }

  /** Drone 1 wins a cell and falls silent, comes back, wins the cell again and falls silent again. */
  function TwoSilences(): seq<Event> {
    WinEvents(1, 0) + [SilenceAt(0)] + WinEvents(2, 7000) + [SilenceAt(7000)]
  }

  /** Nothing waits, no drone but drone 1 was heard, and no claim with a number above `id` was resolved. */
  ghost predicate Calm(s: Ledger, id: ClaimId) {
    && LedgerInv(s) && s.index.pending == map[] && s.heard.Keys <= {1}
    && forall x :: x in s.resolved ==> x <= id
  }

  ghost predicate HoldsHome(s: Ledger) {
    Known(s.drones, 1).alive && Known(s.drones, 1).claimed == Some(HOME)
  }

  lemma Joined(s: Ledger, events: seq<Event>, more: seq<Event>, me: DroneId)
    ensures RunFrom(s, events + more, me) == RunFrom(RunFrom(s, events, me), more, me)
    ensures AllPossible(s, events + more, me)
            <==> AllPossible(s, events, me) && AllPossible(RunFrom(s, events, me), more, me)
    decreases |more|
  {
    hide After, Possible;
    if more == [] {
      assert events + more == events;
    } else {
      var front, e := more[..|more| - 1], more[|more| - 1];
      assert (events + more)[..|events + more| - 1] == events + front;
      Joined(s, events, front, me);
    }
  }

  lemma Wins(s: Ledger, id: ClaimId, atMs: int, me: DroneId)
    requires Calm(s, id - 1)
    ensures var t := RunFrom(s, WinEvents(id, atMs), me);
      && AllPossible(s, WinEvents(id, atMs), me) && Calm(t, id) && HoldsHome(t) && t.released == s.released
      && t.heard == map[1 := atMs]
  {
    var beat, heard := BeatHeard(1, HOME, atMs), ClaimHeard(BoutClaim(id, atMs));
    var e := ClaimsResolved([[BoutClaim(id, atMs)]], Uniform(1), 1000, atMs + 1000);
    hide After, Possible, LedgerInv, RunFrom, AllPossible, HoldsHome, Active, Known;
    ThreeSteps(s, beat, heard, e, me);
    StepKeeps(s, beat, me);
    BeatSeen(s, atMs, me);
    Unconditional(s, beat);
    var s1 := After(s, beat, me);
    Unconditional(s1, heard);
    WinsAfterBeat(s1, id, atMs, me);
  }

  lemma WinsAfterBeat(s: Ledger, id: ClaimId, atMs: int, me: DroneId)
    requires LedgerInv(s) && s.index.pending == map[] && Active(Known(s.drones, 1))
    requires forall x :: x in s.resolved ==> x <= id - 1
    ensures var heard := After(s, ClaimHeard(BoutClaim(id, atMs)), me);
      var e := ClaimsResolved([[BoutClaim(id, atMs)]], Uniform(1), 1000, atMs + 1000);
      var t := After(heard, e, me);
      && Possible(heard, e) && LedgerInv(t) && t.index.pending == map[] && HoldsHome(t) && t.released == s.released
      && t.heard == s.heard && forall x :: x in t.resolved ==> x <= id
  {
    hide After, Possible, LedgerInv, Active;
    var claim := BoutClaim(id, atMs);
    var heard := After(s, ClaimHeard(claim), me);
    StepKeeps(s, ClaimHeard(claim), me);
    StepKeeps(heard, ClaimsResolved([[claim]], Uniform(1), 1000, atMs + 1000), me);
    ClaimAndWin(s, claim, Uniform(1), 1000, me);
  }

  lemma Unconditional(s: Ledger, e: Event)
    requires !e.ClaimsResolved? && !e.SilenceFound?
    ensures Possible(s, e)
  {}

  lemma BeatSeen(s: Ledger, atMs: int, me: DroneId)
    requires s.heard.Keys <= {1}
    ensures var t := After(s, BeatHeard(1, HOME, atMs), me);
      && t.heard == map[1 := atMs] && t.silent == s.silent - {1} && t.index == s.index && t.released == s.released
      && t.resolved == s.resolved && t.outbox == s.outbox && Active(Known(t.drones, 1))
  {}

  lemma FallsSilent(s: Ledger, id: ClaimId, atMs: int, me: DroneId)
    requires Calm(s, id) && HoldsHome(s) && s.heard == map[1 := atMs] && me != 1
    ensures Possible(s, SilenceAt(atMs))
    ensures var t := After(s, SilenceAt(atMs), me);
      && Calm(t, id) && t.released == s.released + {1}
      && (1 in s.released ==> t.outbox == s.outbox)
      && (1 !in s.released ==> t.outbox == s.outbox + [RoundPayload(s.roundId + 1, HOME, [], Some(1))])
  {
    hide LedgerInv, SilenceOne;
    assert Late(s, atMs + 6000, 5000) == {1};
    assert Elements([1]) == {1} by {
      assert [1][0] == 1;
    }
    StepKeeps(s, SilenceAt(atMs), me);
    var start := s.(silent := {1});
    assert [1][..0] == [];
    assert SilenceAll(start, [1], me, atMs + 6000) == SilenceOne(start, 1, me, atMs + 6000);
    SilenceOneReleases(start, 1, me, atMs + 6000);
    SilenceLeaves(start, 1, me, atMs + 6000);
  }

  lemma SilenceLeaves(s: Ledger, id: DroneId, me: DroneId, nowMs: int)
    ensures var t := SilenceOne(s, id, me, nowMs);
      t.index.pending.Keys <= s.index.pending.Keys && t.heard == s.heard && t.resolved == s.resolved
  {
    hide Announce;
    var d := Known(s.drones, id);
    if d.claimed.Some? {
      AnnounceFrame(s.(drones := s.drones[id := d]), RoundPayload(s.roundId + 1, d.claimed.value, [], Some(id)), me,
                    nowMs);
      AnnounceHears(s.(drones := s.drones[id := d]), RoundPayload(s.roundId + 1, d.claimed.value, [], Some(id)), me,
                    nowMs);
    }
  }

  lemma AnnounceHears(s: Ledger, round: RoundPayload, me: DroneId, nowMs: int)
    ensures Announce(s, round, me, nowMs).heard == s.heard
  {
    hide AssignAll, Evicted;
  }

  lemma FirstBout(me: DroneId)
    requires me != 1
    ensures var won, gone := RunFrom(Start(), WinEvents(1, 0), me),
        RunFrom(Start(), WinEvents(1, 0) + [SilenceAt(0)], me);
      && AllPossible(Start(), WinEvents(1, 0) + [SilenceAt(0)], me) && HoldsHome(won)
      && Calm(gone, 1) && gone.released == {1}
      && gone.outbox == won.outbox + [RoundPayload(won.roundId + 1, HOME, [], Some(1))]
  {
    hide RunFrom, AllPossible, After, Possible, HoldsHome;
    CalmStart();
    Wins(Start(), 1, 0, me);
    var won := RunFrom(Start(), WinEvents(1, 0), me);
    FallsSilent(won, 1, 0, me);
    RunMore(Start(), WinEvents(1, 0), SilenceAt(0), me);
  }

  lemma CalmStart()
    ensures Calm(Start(), 0)
  {}

  /** Only the first silence is followed by a release, although the drone held the cell before both. */
  lemma SecondSilenceReleasesNothing(me: DroneId)
    requires me != 1
    ensures AllPossible(Start(), TwoSilences(), me)
    ensures var won, gone := RunFrom(Start(), WinEvents(1, 0), me),
        RunFrom(Start(), WinEvents(1, 0) + [SilenceAt(0)], me);
      HoldsHome(won) && gone.outbox == won.outbox + [RoundPayload(won.roundId + 1, HOME, [], Some(1))]
    ensures var again := RunFrom(Start(), WinEvents(1, 0) + [SilenceAt(0)] + WinEvents(2, 7000), me);
      HoldsHome(again) && RunFrom(Start(), TwoSilences(), me).outbox == again.outbox
  {
    hide RunFrom, AllPossible, After, Possible, HoldsHome;
    FirstBout(me);
    var first := WinEvents(1, 0) + [SilenceAt(0)];
    var gone := RunFrom(Start(), first, me);
    Wins(gone, 2, 7000, me);
    Joined(Start(), first, WinEvents(2, 7000), me);
    var again := RunFrom(Start(), first + WinEvents(2, 7000), me);
    FallsSilent(again, 2, 7000, me);
    RunMore(Start(), first + WinEvents(2, 7000), SilenceAt(7000), me);
  }
}
