/** A run in which the release queue books a cell that somebody holds: three drones on a grid of two by two. */
module DoubleBooking {
  import opened Basics
  import opened Sorting
  import opened Auction
  import opened Consensus
  import opened Drones
  import opened Rounds
  import opened SwarmRuns

  const HOME: Coord := Coord(0, 0)
  const EAST: Coord := Coord(1, 0)
  const CORNER: Coord := Coord(1, 1)

  /** One cell is more uncertain than all others. */
  function Peaked(id: DroneId): MapView {
    MapView(2, c => if c == HOME then 1.0 else 0.5)
  }

  function Starter(id: DroneId, position: Coord): Drone {
    Drone(id, position, IdleStatus, None, None, Whole, true, true, 0)
  }

  /** The swarm as constructed: drones on the first three places of the border. */
  function Begin(): Swarm {
    Swarm(2, [Starter(1, HOME), Starter(2, EAST), Starter(3, CORNER)], false, [], [], None)
  }

  function Asks(id: DroneId, position: Coord, cell: Coord, nowMs: int): ClaimRequest {
    ClaimRequest(id, id, cell, position, nowMs)
  }

  /** Everybody claims the uncertain cell. */
  function FirstClaims(): seq<ClaimRequest> {
    [Asks(1, HOME, HOME, 1000), Asks(2, EAST, HOME, 1000), Asks(3, CORNER, HOME, 1000)]
  }

  ghost function FirstRound(): Event {
    AssignRound(Peaked, Peaked(0), {}, 1000, ResolveConflict(FirstClaims(), Peaked(0), {}).value.assignments)
  }

  /** The second round: the holder is off the mesh, so its cell counts as free. */
  function SecondRound(): Event {
    AssignRound(Peaked, Peaked(0), {}, 2000,
                [ZoneAssignment(2, HOME, Winner, Whole), ZoneAssignment(3, CORNER, Winner, Whole)])
  }

  /** Drone 1 wins the cell and drops off the mesh; drones 2 and 3 finish theirs, and drone 2 claims the
      cell; drone 1 is declared stale, which queues the cell; drone 3 finishes and is handed the cell. */
  ghost function Course(): seq<Event> {
    [FirstRound(), Fail(0), Clear(1), Clear(2), SecondRound(), GoStale(0), Clear(2), Priority(2, HOME, PriorityReclaim)]
  }

  lemma PeakFirst(taken: set<Coord>, from: Coord, id: DroneId, shared: bool)
    requires HOME !in taken
    ensures SelectNextZone(Peaked(id), taken, from, shared) == Some(HOME)
  {
    hide SelectNextZone, DistSquared;
    SelectionIsBest(Peaked(id), taken, from, shared, HOME);
  }

  lemma OwnCellNext(taken: set<Coord>, own: Coord, id: DroneId)
    requires InGrid(own, 2) && own !in taken && HOME in taken
    ensures SelectNextZone(Peaked(id), taken, own, false) == Some(own)
  {
    hide SelectNextZone;
    SelectionIsBest(Peaked(id), taken, own, false, own);
    var r := SelectNextZone(Peaked(id), taken, own, false).value;
    assert DistSquared(own, own) == 0;
    FarIsPositive(own, r);
  }

  lemma FarIsPositive(a: Coord, b: Coord)
    ensures a != b ==> DistSquared(a, b) > 0
  {
    SquareSign(a.x - b.x);
    SquareSign(a.y - b.y);
  }

  lemma SquareSign(n: int)
    ensures n * n >= 0 && (n != 0 ==> n * n > 0)
  {}

  lemma {:induction false} AllWantPeak(idle: seq<Drone>, taken: set<Coord>, nowMs: int)
    requires HOME !in taken
    ensures var claims := GatherClaims(idle, Peaked, taken, {}, true, nowMs);
      |claims| == |idle| && forall k :: 0 <= k < |idle| ==> claims[k] == ClaimFor(idle[k], HOME, nowMs)
  {
    hide SelectNextZone, Peaked;
    if idle != [] {
      assert taken + {} == taken;
      PeakFirst(taken, idle[0].position, idle[0].id, true);
      AllWantPeak(idle[1..], taken, nowMs);
    }
  }

  lemma FirstClaimsAre()
    ensures ClaimedZones(Begin().drones) == {}
    ensures RoundClaims(Begin(), Peaked, {}, 1000) == FirstClaims()
    ensures |GroupOf(FirstClaims(), HOME)| == 3
  {
    hide GatherClaims, GroupOf, ClaimedZones;
    var ds := Begin().drones;
    forall c ensures c !in ClaimedZones(ds) {}
    AllIdle(ds);
    AllWantPeak(ds, {}, 1000);
    WholeGroup(FirstClaims(), HOME);
  }

  lemma NearerThanOthers()
    ensures !ClaimLe(FirstClaims()[1], FirstClaims()[0]) && !ClaimLe(FirstClaims()[2], FirstClaims()[0])
  {}

  /** The nearest claimant is ranked first. */
  lemma NearestLeads()
    ensures Ranked(FirstClaims())[0] == FirstClaims()[0]
  {
    hide Sort, ClaimLe, DistSquared;
    var claims := FirstClaims();
    NearerThanOthers();
    ClaimOrder();
    SortSorts(claims, ClaimLe);
    SameElements(claims, Ranked(claims));
    assert Ranked(claims)[0] in claims && claims[0] in Ranked(claims);
    var k :| 0 <= k < |Ranked(claims)| && Ranked(claims)[k] == claims[0];
    assert k > 0 ==> ClaimLe(Ranked(claims)[0], claims[0]);
  }

  lemma FirstWinner()
    ensures ResolveConflict(FirstClaims(), Peaked(0), {}).Some?
    ensures var assignments := ResolveConflict(FirstClaims(), Peaked(0), {}).value.assignments;
      && |assignments| > 0 && assignments[0].droneId == 1 && assignments[0].cell == HOME
          && assignments[0].reason != Idle
      && DistinctAssignees(assignments)
  {
    hide Ranked, ResolveConflict, Fallbacks;
    AssigneesDistinct(FirstClaims(), Peaked(0), {});
    var lead, heads, losers := DecisionShape(FirstClaims(), Peaked(0), {});
    NearestLeads();
    assert heads[0] == Ranked(FirstClaims())[0];
  }

  /** After the first round drone 1 holds the cell, and everybody works where it started. */
  ghost predicate Settled(s: Swarm) {
    && s.size == 2 && s.contended && s.releases == s.targets == [] && |s.drones| == 3
    && (forall i :: 0 <= i < 3 ==> Active(s.drones[i]) && s.drones[i].id == i + 1
                                   && s.drones[i].position == Begin().drones[i].position)
    && s.drones[0].claimed == s.drones[0].target == Some(HOME)
  }

  lemma FirstRoundRuns()
    ensures Initial(Begin()) && Possible(Begin(), FirstRound()) && Finished(Begin(), FirstRound())
    ensures Settled(Next(Begin(), FirstRound()))
  {
    hide RoundClaims, GroupOf, ApplyAll, ResolveConflict, ClaimedZones, RoundComplete, RoundSoFar, HeldRound;
    var s, claims := Begin(), FirstClaims();
    FirstClaimsAre();
    OneContestCompletes(claims, HOME, Peaked(0), {});
    var assignments := ResolveConflict(claims, Peaked(0), {}).value.assignments;
    CompleteIsSoFar(assignments, claims, Peaked(0), {});
    RoundEvent(s, Peaked, Peaked(0), {}, 1000, assignments);
    FirstHeld();
  }

  lemma CompleteIsSoFar(assignments: seq<ZoneAssignment>, claims: seq<ClaimRequest>, view: MapView, claimed: set<Coord>)
    requires RoundComplete(assignments, claims, view, claimed)
    ensures RoundSoFar(assignments, claims, view, claimed)
  {}

  lemma FirstHeld()
    ensures ResolveConflict(FirstClaims(), Peaked(0), {}).Some?
    ensures Settled(HeldRound(Begin(), FirstClaims(), ResolveConflict(FirstClaims(), Peaked(0), {}).value.assignments))
  {
    hide *;
    FirstClaimsAre();
    FirstWinner();
    LeaderHolds(FirstClaims(), ResolveConflict(FirstClaims(), Peaked(0), {}).value.assignments);
  }

  lemma LeaderHolds(claims: seq<ClaimRequest>, assignments: seq<ZoneAssignment>)
    requires |GroupOf(claims, HOME)| > 1 && DistinctAssignees(assignments)
    requires |assignments| > 0 && assignments[0].droneId == 1 && assignments[0].cell == HOME
    requires assignments[0].reason != Idle
    ensures Settled(HeldRound(Begin(), claims, assignments))
  {
    hide GroupOf, ApplyAll;
    var ds := Announced(Begin().drones, claims);
    ApplyAllAt(ds, assignments, 0);
    AfterRound(ds, assignments, 1);
    AfterRound(ds, assignments, 2);
    KeepsPlaces(ds, assignments);
  }

  lemma KeepsPlaces(ds: seq<Drone>, assignments: seq<ZoneAssignment>)
    requires DistinctAssignees(assignments)
    ensures forall i :: 0 <= i < |ds| ==> ApplyAll(ds, assignments)[i].id == ds[i].id
                                          && ApplyAll(ds, assignments)[i].position == ds[i].position
  {
    hide ApplyAll;
    forall i | 0 <= i < |ds| ensures ApplyAll(ds, assignments)[i].position == ds[i].position {
      ApplyAllAt(ds, assignments, i);
      if k :| 0 <= k < |assignments| && assignments[k].droneId == ds[i].id {
        assert ApplyAll(ds, assignments)[i] == Applied(ds[i], assignments[k]);
      }
    }
  }

  /** Drone 1 is off the mesh but still alive, drones 2 and 3 are idle where they started. */
  ghost predicate Adrift(s: Swarm) {
    && s.size == 2 && s.contended && s.releases == s.targets == [] && |s.drones| == 3
    && s.drones[0].id == 1 && s.drones[0].alive && !s.drones[0].reachable && s.drones[0].claimed == Some(HOME)
    && s.drones[1].id == 2 && Active(s.drones[1]) && s.drones[1].claimed == s.drones[1].target == None
    && s.drones[2].id == 3 && Active(s.drones[2]) && s.drones[2].claimed == s.drones[2].target == None
    && s.drones[1].position == EAST && s.drones[2].position == CORNER
  }

  lemma SecondClaims(s: Swarm)
    requires Adrift(s)
    ensures ClaimedZones(s.drones) == {}
    ensures RoundClaims(s, Peaked, {}, 2000) == [Asks(2, EAST, HOME, 2000), Asks(3, CORNER, CORNER, 2000)]
  {
    hide SelectNextZone, ClaimedZones;
    forall c ensures c !in ClaimedZones(s.drones) {}
    var b, c := s.drones[1], s.drones[2];
    assert s.drones[1..] == [b, c] && [b, c][1..] == [c] && [c][1..] == [];
    assert IdleOf([c]) == [c] && IdleOf([b, c]) == [b, c] && IdleOf(s.drones) == [b, c];
    var none: set<Coord> := {};
    assert none + none == none && none + {HOME} == {HOME} && {HOME} + none == {HOME};
    PeakFirst({}, EAST, 2, false);
    OwnCellNext({HOME}, CORNER, 3);
    var last := GatherClaims([c], Peaked, {HOME}, {}, false, 2000);
    assert last == [ClaimFor(c, CORNER, 2000)] + GatherClaims([], Peaked, {HOME} + {CORNER}, {}, false, 2000);
    assert last == [Asks(3, CORNER, CORNER, 2000)];
  }

  lemma SecondComplete()
    ensures RoundComplete(SecondRound().assignments, [Asks(2, EAST, HOME, 2000), Asks(3, CORNER, CORNER, 2000)],
                          Peaked(0), {})
  {
    var claims := [Asks(2, EAST, HOME, 2000), Asks(3, CORNER, CORNER, 2000)];
    var won, other := SecondRound().assignments[0], SecondRound().assignments[1];
    assert claims[1..] == [claims[1]] && claims[1..][1..] == [];
    assert GroupOf(claims, HOME) == [claims[0]] && GroupOf(claims, CORNER) == [claims[1]];
    assert HandedOut(won, claims, HOME, Peaked(0), {}) && HandedOut(other, claims, CORNER, Peaked(0), {});
    forall a, c | HandedOut(a, claims, c, Peaked(0), {}) ensures a in [won, other] {
      var group := GroupOf(claims, c);
      assert group[0] in claims && group[0].cell == c;
    }
  }

  /** Drone 2 holds the cell that drone 1, off the mesh, has not let go of. */
  ghost predicate Contested(s: Swarm) {
    && s.releases == s.targets == [] && |s.drones| == 3
    && s.drones[0].alive && s.drones[0].claimed == Some(HOME) && Active(s.drones[1]) && Active(s.drones[2])
    && s.drones[1].claimed == s.drones[1].target == Some(HOME) && s.drones[1].subzone == Whole
  }

  lemma SecondRoundRuns(s: Swarm)
    requires Adrift(s)
    ensures Possible(s, SecondRound()) && Finished(s, SecondRound())
    ensures Contested(Next(s, SecondRound()))
  {
    hide RoundClaims, ApplyAll, ClaimedZones, RoundComplete, RoundSoFar, HeldRound;
    SecondClaims(s);
    SecondComplete();
    var claims := RoundClaims(s, Peaked, {}, 2000);
    CompleteIsSoFar(SecondRound().assignments, claims, Peaked(0), {});
    RoundEvent(s, Peaked, Peaked(0), {}, 2000, SecondRound().assignments);
    SecondHeld(s, claims);
  }

  lemma SecondHeld(s: Swarm, claims: seq<ClaimRequest>)
    requires Adrift(s)
    ensures Contested(HeldRound(s, claims, SecondRound().assignments))
  {
    hide ApplyAll, Contest;
    var ds, assignments := Announced(s.drones, claims), SecondRound().assignments;
    ApplyAllAt(ds, assignments, 0);
    ApplyAllAt(ds, assignments, 1);
    ApplyAllAt(ds, assignments, 2);
    assert assignments[0].droneId == ds[1].id && assignments[1].droneId == ds[2].id;
  }

  lemma DropsOut(s: Swarm)
    requires Settled(s)
    ensures exists t :: Adrift(t) && Runs(s, [Fail(0), Clear(1), Clear(2)], t)
  {
    hide Runs, RoundClaims, RoundSoFar, HeldRound, ClaimedZones;
    var a := Next(s, Fail(0));
    var b := Next(a, Clear(1));
    var c := Next(b, Clear(2));
    assert Adrift(c);
    RunsThree(s, Fail(0), Clear(1), Clear(2));
  }

  lemma RunsThree(s: Swarm, e: Event, f: Event, g: Event)
    requires Possible(s, e) && Possible(Next(s, e), f) && Possible(Next(Next(s, e), f), g)
    ensures Runs(s, [e, f, g], Next(Next(Next(s, e), f), g))
  {
    hide Possible, Next;
    assert [e, f, g][1..] == [f, g] && [f, g][1..] == [g] && [g][1..] == [];
    var a := Next(s, e);
    var b := Next(a, f);
    assert Runs(b, [g], Next(b, g));
    assert Runs(a, [f, g], Next(b, g));
  }

  lemma BookedTwice(s: Swarm)
    requires Contested(s)
    ensures exists t :: Runs(s, [GoStale(0), Clear(2), Priority(2, HOME, PriorityReclaim)], t) && !Safe(t.drones)
  {
    hide Runs, Safe;
    var last := Priority(2, HOME, PriorityReclaim);
    SilenceQueues(s);
    var b := Next(Next(s, GoStale(0)), Clear(2));
    HandsOver(b);
    RunsThree(s, GoStale(0), Clear(2), last);
    assert !Safe(Next(b, last).drones);
  }

  lemma SilenceQueues(s: Swarm)
    requires Contested(s)
    ensures Possible(s, GoStale(0)) && Possible(Next(s, GoStale(0)), Clear(2))
    ensures var b := Next(Next(s, GoStale(0)), Clear(2));
      && b.releases == [HOME] && |b.drones| == 3 && Active(b.drones[1]) && b.drones[1].claimed == Some(HOME)
      && b.drones[1].subzone == Whole && Active(b.drones[2]) && b.drones[2].target.None?
  {
    hide RoundClaims, RoundSoFar, HeldRound, ClaimedZones;
  }

  lemma HandsOver(b: Swarm)
    requires b.releases == [HOME] && |b.drones| == 3 && Active(b.drones[1]) && b.drones[1].claimed == Some(HOME)
    requires b.drones[1].subzone == Whole && Active(b.drones[2]) && b.drones[2].target.None?
    ensures Possible(b, Priority(2, HOME, PriorityReclaim))
    ensures !Safe(Next(b, Priority(2, HOME, PriorityReclaim)).drones)
  {
    hide RoundClaims, RoundSoFar, HeldRound, ClaimedZones;
    var c := Next(b, Priority(2, HOME, PriorityReclaim));
    assert !Apart(c.drones[1], c.drones[2]);
  }

  /** From the swarm as constructed, a drone that drops off the mesh frees its cell at once; another drone
      claims it; when the silence is noticed the cell is queued all the same, and handed out a second time. */
  lemma LateReclaimDoubleBooks()
    ensures Initial(Begin()) && exists t :: Runs(Begin(), Course(), t) && !Safe(t.drones)
  {
    hide Runs, Possible, Next, Initial, Adrift, Settled, Contested, Safe, FirstRound, SecondRound;
    FirstRoundRuns();
    var s1 := Next(Begin(), FirstRound());
    RunsOne(Begin(), FirstRound());
    DropsOut(s1);
    var s2 :| Adrift(s2) && Runs(s1, [Fail(0), Clear(1), Clear(2)], s2);
    RunsThen(Begin(), [FirstRound()], s1, [Fail(0), Clear(1), Clear(2)], s2);
    SecondRoundRuns(s2);
    var s3 := Next(s2, SecondRound());
    RunsOne(s2, SecondRound());
    RunsThen(Begin(), [FirstRound()] + [Fail(0), Clear(1), Clear(2)], s2, [SecondRound()], s3);
    BookedTwice(s3);
    var last := [GoStale(0), Clear(2), Priority(2, HOME, PriorityReclaim)];
    var t :| Runs(s3, last, t) && !Safe(t.drones);
    RunsThen(Begin(), [FirstRound()] + [Fail(0), Clear(1), Clear(2)] + [SecondRound()], s3, last, t);
    assert [FirstRound()] + [Fail(0), Clear(1), Clear(2)] + [SecondRound()] + last == Course();
  }
}
