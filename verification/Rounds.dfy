/** Assignment rounds of the swarm, and the safety property they keep: no two working drones hold one
    cell, unless they are the two halves of a split. */
module Rounds {
  import opened Basics
  import opened Sorting
  import opened Auction
  import opened Consensus
  import opened Drones

  ghost predicate DistinctIds(ds: seq<Drone>) {
    forall i, j :: 0 <= i < j < |ds| ==> ds[i].id != ds[j].id
  }

  /** The claimed cell is always the target. */
  ghost predicate Coherent(ds: seq<Drone>) {
    forall i :: 0 <= i < |ds| ==> ds[i].target == ds[i].claimed
  }

  predicate Halves(a: Subzone, b: Subzone) {
    (a == Left && b == Right) || (a == Right && b == Left)
  }

  ghost predicate Apart(a: Drone, b: Drone) {
    a.claimed.Some? && a.claimed == b.claimed ==> Halves(a.subzone, b.subzone)
  }

  ghost predicate Safe(ds: seq<Drone>) {
    forall i, j :: 0 <= i < j < |ds| && Active(ds[i]) && Active(ds[j]) ==> Apart(ds[i], ds[j])
  }

  /** Safety leaves room for at most two drones on a cell. */
  lemma AtMostTwo(ds: seq<Drone>, i: nat, j: nat, k: nat)
    requires Safe(ds) && i < j < k < |ds|
    requires Active(ds[i]) && Active(ds[j]) && Active(ds[k])
    requires ds[i].claimed.Some?
    ensures !(ds[i].claimed == ds[j].claimed == ds[k].claimed)
  {
    assert Apart(ds[i], ds[j]) && Apart(ds[j], ds[k]) && Apart(ds[i], ds[k]);
  }

  /** The cells held by working drones. */
  function ClaimedZones(ds: seq<Drone>): (zones: set<Coord>)
    ensures forall c :: c in zones <==> exists i :: 0 <= i < |ds| && Active(ds[i]) && ds[i].claimed == Some(c)
  {
    set i | 0 <= i < |ds| && Active(ds[i]) && ds[i].claimed.Some? :: ds[i].claimed.value
  }

  // ----- applying assignments -----

  function Applied(d: Drone, a: ZoneAssignment): Drone {
    if a.reason == Idle then d.(status := IdleStatus)
    else Assigned(d, a.cell, a.subzone).(status :=
           if a.reason in {Winner, Split, PriorityReclaim, PriorityTarget} then ClaimWon else ClaimLost)
  }

  /** An idle assignment only sets the status; any other gives the drone the cell, or its half of it, as
      target and claim. */
  lemma AppliedInWords(d: Drone, a: ZoneAssignment)
    ensures var r := Applied(d, a);
      && r.id == d.id && r.position == d.position && r.alive == d.alive && r.reachable == d.reachable
      && r.searchedCells == d.searchedCells
      && (a.reason == Idle ==>
            r.status == IdleStatus && r.target == d.target && r.claimed == d.claimed && r.subzone == d.subzone)
      && (a.reason != Idle ==> r.target == r.claimed == Some(a.cell) && r.subzone == a.subzone)
      && (a.reason == Fallback ==> r.status == ClaimLost)
      && (a.reason != Idle && a.reason != Fallback ==> r.status == ClaimWon)
  {}

  function ApplyTo(ds: seq<Drone>, a: ZoneAssignment): seq<Drone> {
    seq(|ds|, i requires 0 <= i < |ds| => if ds[i].id == a.droneId then Applied(ds[i], a) else ds[i])
  }

  function ApplyAll(ds: seq<Drone>, assignments: seq<ZoneAssignment>): (r: seq<Drone>)
    ensures |r| == |ds|
    ensures forall i :: 0 <= i < |ds| ==> r[i].id == ds[i].id
    decreases |assignments|
  {
    if assignments == [] then ds
    else ApplyTo(ApplyAll(ds, assignments[..|assignments| - 1]), assignments[|assignments| - 1])
  }

  /** With one assignment per drone, each drone ends with its own and nothing else. */
  lemma {:induction false} ApplyAllAt(ds: seq<Drone>, assignments: seq<ZoneAssignment>, i: nat)
    requires DistinctAssignees(assignments) && i < |ds|
    ensures forall k :: 0 <= k < |assignments| && assignments[k].droneId == ds[i].id ==>
      ApplyAll(ds, assignments)[i] == Applied(ds[i], assignments[k])
    ensures (forall k :: 0 <= k < |assignments| ==> assignments[k].droneId != ds[i].id) ==>
      ApplyAll(ds, assignments)[i] == ds[i]
    decreases |assignments|
  {
    if assignments != [] {
      ApplyAllAt(ds, assignments[..|assignments| - 1], i);
    }
  }

  // ----- a round -----

  /** Two assignments of different drones give different cells, or the halves of one. */
  ghost predicate Compatible(assignments: seq<ZoneAssignment>) {
    forall i, j :: 0 <= i < |assignments| && 0 <= j < |assignments| && i != j
                   && assignments[i].reason != Idle && assignments[j].reason != Idle
                   && assignments[i].cell == assignments[j].cell ==>
      Halves(assignments[i].subzone, assignments[j].subzone)
  }

  /** What the assignments of a round must be like to be harmless. */
  ghost predicate Harmless(ds: seq<Drone>, assignments: seq<ZoneAssignment>) {
    && DistinctAssignees(assignments) && Compatible(assignments)
    && (forall k :: 0 <= k < |assignments| && assignments[k].reason != Idle ==>
      assignments[k].cell !in ClaimedZones(ds))
    && (forall i, k :: 0 <= i < |ds| && 0 <= k < |assignments| && assignments[k].droneId == ds[i].id ==>
          ds[i].claimed == None && ds[i].target == None)
  }

  /** After a harmless round a drone either is unchanged in all that matters or holds the cell of its assignment. */
  lemma AfterRound(ds: seq<Drone>, assignments: seq<ZoneAssignment>, i: nat)
    requires DistinctAssignees(assignments) && i < |ds|
    ensures var d, r := ds[i], ApplyAll(ds, assignments)[i];
      && r.alive == d.alive && r.reachable == d.reachable
      && ((r.claimed == d.claimed && r.target == d.target && r.subzone == d.subzone)
          || exists k :: 0 <= k < |assignments| && assignments[k].droneId == d.id && assignments[k].reason != Idle
                         && r.claimed == r.target == Some(assignments[k].cell) && r.subzone == assignments[k].subzone)
  {
    ApplyAllAt(ds, assignments, i);
    if k :| 0 <= k < |assignments| && assignments[k].droneId == ds[i].id {
      assert ApplyAll(ds, assignments)[i] == Applied(ds[i], assignments[k]);
    }
  }

  lemma RoundKeepsPair(ds: seq<Drone>, assignments: seq<ZoneAssignment>, i: nat, j: nat)
    requires Safe(ds) && DistinctIds(ds) && Harmless(ds, assignments)
    requires i < j < |ds|
    requires Active(ApplyAll(ds, assignments)[i]) && Active(ApplyAll(ds, assignments)[j])
    ensures Apart(ApplyAll(ds, assignments)[i], ApplyAll(ds, assignments)[j])
  {
    hide ApplyAll, DistinctAssignees;
    AfterRound(ds, assignments, i);
    AfterRound(ds, assignments, j);
    assert Apart(ds[i], ds[j]);
  }

  lemma HarmlessKeepsSafe(ds: seq<Drone>, assignments: seq<ZoneAssignment>)
    requires Safe(ds) && DistinctIds(ds) && Coherent(ds) && Harmless(ds, assignments)
    ensures Safe(ApplyAll(ds, assignments)) && DistinctIds(ApplyAll(ds, assignments))
    ensures Coherent(ApplyAll(ds, assignments))
  {
    hide ApplyAll, Harmless, Apart;
    var r := ApplyAll(ds, assignments);
    forall i, j | 0 <= i < j < |r| && Active(r[i]) && Active(r[j]) ensures Apart(r[i], r[j]) {
      RoundKeepsPair(ds, assignments, i, j);
    }
    forall i | 0 <= i < |r| ensures r[i].target == r[i].claimed {
      HarmlessAssignees(ds, assignments);
      AfterRound(ds, assignments, i);
    }
  }

  lemma HarmlessAssignees(ds: seq<Drone>, assignments: seq<ZoneAssignment>)
    requires Harmless(ds, assignments)
    ensures DistinctAssignees(assignments)
  {}

  // ----- the claims of a round -----

  function ClaimFor(d: Drone, c: Coord, nowMs: int): ClaimRequest {
    ClaimRequest(d.id, d.id, c, d.position, nowMs)
  }

  /** The claims of the idle drones, in order. While the view is shared everybody chooses from the same
      cells, whatever the distance; later each choice is withdrawn from the next ones. */
  function GatherClaims(idle: seq<Drone>, views: DroneId -> MapView, taken: set<Coord>, blocked: set<Coord>,
                        shared: bool, nowMs: int): seq<ClaimRequest>
  {
    if idle == [] then []
    else
      var selection := SelectNextZone(views(idle[0].id), taken + blocked, idle[0].position, shared);
      if selection.None? then GatherClaims(idle[1..], views, taken, blocked, shared, nowMs)
      else [ClaimFor(idle[0], selection.value, nowMs)]
           + GatherClaims(idle[1..], views, if shared then taken else taken + {selection.value}, blocked, shared, nowMs)
  }

  function CellsOfClaims(claims: seq<ClaimRequest>): set<Coord> {
    set c | c in claims :: c.cell
  }

  /** One more idle drone: it claims its best cell that is neither taken nor blocked nor, once the view is no
      longer shared, claimed by a drone before it; and it claims nothing when there is none. */
  lemma {:induction false} NextClaim(idle: seq<Drone>, d: Drone, views: DroneId -> MapView, taken: set<Coord>,
                                     blocked: set<Coord>, shared: bool, nowMs: int)
    ensures var before := GatherClaims(idle, views, taken, blocked, shared, nowMs);
      var reserved := taken + blocked + (if shared then {} else CellsOfClaims(before));
      var selection := SelectNextZone(views(d.id), reserved, d.position, shared);
      GatherClaims(idle + [d], views, taken, blocked, shared, nowMs)
      == before + (if selection.None? then []
                   else [ClaimRequest(d.id, d.id, selection.value, d.position, nowMs)])
    decreases |idle|
  {
    hide SelectNextZone;
    if idle == [] {
      assert idle + [d] == [d] && [d][1..] == [];
      assert taken + blocked + {} == taken + blocked;
      assert CellsOfClaims([]) == {};
    } else {
      assert (idle + [d])[1..] == idle[1..] + [d];
      var selection := SelectNextZone(views(idle[0].id), taken + blocked, idle[0].position, shared);
      var next := if shared || selection.None? then taken else taken + {selection.value};
      NextClaim(idle[1..], d, views, next, blocked, shared, nowMs);
      var rest := GatherClaims(idle[1..], views, next, blocked, shared, nowMs);
      if selection.Some? {
        var own := ClaimFor(idle[0], selection.value, nowMs);
        assert CellsOfClaims([own] + rest) == {own.cell} + CellsOfClaims(rest);
        assert next + blocked + CellsOfClaims(rest) == taken + blocked + CellsOfClaims([own] + rest) || shared;
      }
    }
  }

  ghost predicate CellsDistinct(claims: seq<ClaimRequest>) {
    forall i, j :: 0 <= i < j < |claims| ==> claims[i].cell != claims[j].cell
  }

  ghost predicate Among(ds: seq<Drone>, id: DroneId) {
    exists i :: 0 <= i < |ds| && ds[i].id == id
  }

  /** Each claim comes from an idle drone, at most one per drone, for a cell of its map that is not taken. */
  lemma {:induction false} ClaimFacts(idle: seq<Drone>, views: DroneId -> MapView, taken: set<Coord>,
                                      blocked: set<Coord>, shared: bool, nowMs: int)
    requires DistinctIds(idle)
    ensures var claims := GatherClaims(idle, views, taken, blocked, shared, nowMs);
      && DistinctDrones(claims)
      && (forall k :: 0 <= k < |claims| ==>
            && Among(idle, claims[k].droneId)
            && claims[k].cell !in taken + blocked && InGrid(claims[k].cell, views(claims[k].droneId).size))
      && (!shared ==> CellsDistinct(claims))
  {
    hide SelectNextZone;
    if idle != [] {
      var selection := SelectNextZone(views(idle[0].id), taken + blocked, idle[0].position, shared);
      var next := if shared || selection.None? then taken else taken + {selection.value};
      ClaimFacts(idle[1..], views, next, blocked, shared, nowMs);
      var rest := GatherClaims(idle[1..], views, next, blocked, shared, nowMs);
      forall k | 0 <= k < |rest| ensures Among(idle, rest[k].droneId) && rest[k].droneId != idle[0].id {
        assert Among(idle[1..], rest[k].droneId);
        var i :| 0 <= i < |idle[1..]| && idle[1..][i].id == rest[k].droneId;
        assert idle[i + 1].id == rest[k].droneId;
      }
      assert selection.Some? ==> Among(idle, idle[0].id);
    }
  }

  /** Without the distance a choice does not depend on where the drone is. */
  lemma SharedChoice(view: MapView, taken: set<Coord>, from: Coord, from': Coord)
    ensures SelectNextZone(view, taken, from, true) == SelectNextZone(view, taken, from', true)
  {
    FirstIgnoresPosition(view, from, from', FreeList(view.size, taken));
  }

  lemma {:induction false} FirstIgnoresPosition(view: MapView, from: Coord, from': Coord, cells: seq<Coord>)
    ensures First(view, from, true, cells) == First(view, from', true, cells)
  {
    if cells != [] {
      FirstIgnoresPosition(view, from, from', cells[1..]);
    }
  }

  /** With a shared view and equal maps everybody claims the same cell, if any cell is free. */
  lemma {:induction false} SharedClaims(idle: seq<Drone>, views: DroneId -> MapView, view: MapView, taken: set<Coord>,
                                        blocked: set<Coord>, nowMs: int, from: Coord)
    requires forall i :: 0 <= i < |idle| ==> views(idle[i].id) == view
    ensures var claims := GatherClaims(idle, views, taken, blocked, true, nowMs);
            var choice := SelectNextZone(view, taken + blocked, from, true);
      && |claims| == (if choice.None? then 0 else |idle|)
      && (forall k :: 0 <= k < |claims| ==> claims[k].cell == choice.value)
  {
    hide SelectNextZone;
    if idle != [] {
      SharedClaims(idle[1..], views, view, taken, blocked, nowMs, from);
      SharedChoice(view, taken + blocked, idle[0].position, from);
    }
  }

  // ----- the contests of a round -----

  /** The claims on one cell, in order. */
  function GroupOf(claims: seq<ClaimRequest>, c: Coord): (group: seq<ClaimRequest>)
    ensures forall x :: x in group <==> x in claims && x.cell == c
    ensures |group| <= |claims|
  {
    if claims == [] then []
    else if claims[0].cell == c then [claims[0]] + GroupOf(claims[1..], c)
    else GroupOf(claims[1..], c)
  }

  lemma {:induction false} GroupDrones(claims: seq<ClaimRequest>, c: Coord)
    requires DistinctDrones(claims)
    ensures DistinctDrones(GroupOf(claims, c))
  {
    if claims != [] {
      GroupDrones(claims[1..], c);
      var rest := GroupOf(claims[1..], c);
      forall k | 0 <= k < |rest| ensures rest[k].droneId != claims[0].droneId {
        assert rest[k] in rest;
        var i :| 0 <= i < |claims[1..]| && claims[1..][i] == rest[k];
        assert claims[i + 1] == rest[k];
      }
    }
  }

  lemma {:induction false} NobodyElse(claims: seq<ClaimRequest>, c: Coord)
    requires forall i :: 0 <= i < |claims| ==> claims[i].cell != c
    ensures GroupOf(claims, c) == []
  {
    if claims != [] {
      NobodyElse(claims[1..], c);
    }
  }

  lemma {:induction false} LonelyGroup(claims: seq<ClaimRequest>, c: Coord)
    requires CellsDistinct(claims)
    ensures |GroupOf(claims, c)| <= 1
  {
    if claims != [] {
      if claims[0].cell == c {
        NobodyElse(claims[1..], c);
      } else {
        LonelyGroup(claims[1..], c);
      }
    }
  }

  lemma {:induction false} WholeGroup(claims: seq<ClaimRequest>, c: Coord)
    requires forall i :: 0 <= i < |claims| ==> claims[i].cell == c
    ensures GroupOf(claims, c) == claims
  {
    if claims != [] {
      WholeGroup(claims[1..], c);
    }
  }

  /** An assignment that the auction of some cell's claims hands out. */
  ghost predicate HandedOut(a: ZoneAssignment, claims: seq<ClaimRequest>, c: Coord, view: MapView,
                            claimed: set<Coord>) {
    var group := GroupOf(claims, c);
    group != [] && a in ResolveConflict(group, view, claimed).value.assignments
  }

  ghost predicate HandedOutSomewhere(a: ZoneAssignment, claims: seq<ClaimRequest>, view: MapView, claimed: set<Coord>) {
    exists c :: HandedOut(a, claims, c, view, claimed)
  }

  /** The assignments made so far in a round: at most one per drone, each handed out by some contest. */
  ghost predicate RoundSoFar(assignments: seq<ZoneAssignment>, claims: seq<ClaimRequest>, view: MapView,
                             claimed: set<Coord>) {
    && DistinctAssignees(assignments)
    && forall k :: 0 <= k < |assignments| ==> HandedOutSomewhere(assignments[k], claims, view, claimed)
  }

  /** Everything the contests hand out is carried out. */
  ghost predicate RoundComplete(assignments: seq<ZoneAssignment>, claims: seq<ClaimRequest>, view: MapView,
                                claimed: set<Coord>)
  {
    && RoundSoFar(assignments, claims, view, claimed)
    && forall a, c :: HandedOut(a, claims, c, view, claimed) ==> a in assignments
  }

  ghost predicate Assigns(assignments: seq<ZoneAssignment>, id: DroneId) {
    exists k :: 0 <= k < |assignments| && assignments[k].droneId == id
  }

  /** The assignments of a contest go to the claimants, and to all of them. */
  lemma AssignsClaimants(group: seq<ClaimRequest>, view: MapView, claimed: set<Coord>, id: DroneId)
    requires group != [] && ResolveConflict(group, view, claimed).Some?
    ensures Assigns(ResolveConflict(group, view, claimed).value.assignments, id)
            <==> exists k :: 0 <= k < |group| && group[k].droneId == id
  {
    hide ResolveConflict, Ranked;
    AssignmentsFollowRanking(group, view, claimed);
    var assignments, ranked := ResolveConflict(group, view, claimed).value.assignments, Ranked(group);
    assert multiset(ranked) == multiset(group) by {
      hide *;
      RankedPermutes(group);
    }
    SameElements(group, ranked);
    assert forall k :: 0 <= k < |assignments| ==> DroneIds(assignments)[k] == assignments[k].droneId;
    assert forall k :: 0 <= k < |ranked| ==> Claimants(ranked)[k] == ranked[k].droneId;
    if k :| 0 <= k < |group| && group[k].droneId == id {
      assert group[k] in ranked;
      var j :| 0 <= j < |ranked| && ranked[j] == group[k];
      assert assignments[j].droneId == id;
    }
    if j :| 0 <= j < |assignments| && assignments[j].droneId == id {
      assert ranked[j] in group;
      var k :| 0 <= k < |group| && group[k] == ranked[j];
    }
  }

  lemma RankedPermutes(group: seq<ClaimRequest>)
    ensures multiset(Ranked(group)) == multiset(group)
  {
    hide Sort;
  }

  /** A complete round serves every claimant. */
  lemma CompleteRoundServes(assignments: seq<ZoneAssignment>, claims: seq<ClaimRequest>, view: MapView,
                            claimed: set<Coord>, k: nat)
    requires RoundComplete(assignments, claims, view, claimed) && k < |claims|
    ensures Assigns(assignments, claims[k].droneId)
  {
    hide ResolveConflict, GroupOf;
    var group := GroupOf(claims, claims[k].cell);
    assert claims[k] in group;
    ResolveShape(group, view, claimed);
    var decided := ResolveConflict(group, view, claimed).value.assignments;
    AssignsClaimants(group, view, claimed, claims[k].droneId);
    var m :| 0 <= m < |group| && group[m] == claims[k];
    var j :| 0 <= j < |decided| && decided[j].droneId == claims[k].droneId;
    assert HandedOut(decided[j], claims, claims[k].cell, view, claimed);
    var i :| 0 <= i < |assignments| && assignments[i] == decided[j];
  }

  /** A single contest, carried out, is a complete round. */
  lemma OneContestCompletes(claims: seq<ClaimRequest>, cell: Coord, view: MapView, claimed: set<Coord>)
    requires claims != [] && DistinctDrones(claims) && forall k :: 0 <= k < |claims| ==> claims[k].cell == cell
    ensures ResolveConflict(claims, view, claimed).Some?
    ensures RoundComplete(ResolveConflict(claims, view, claimed).value.assignments, claims, view, claimed)
  {
    hide GroupOf, ResolveConflict;
    ResolveShape(claims, view, claimed);
    WholeGroup(claims, cell);
    var assignments := ResolveConflict(claims, view, claimed).value.assignments;
    AssigneesDistinct(claims, view, claimed);
    forall k | 0 <= k < |assignments| ensures HandedOutSomewhere(assignments[k], claims, view, claimed) {
      assert HandedOut(assignments[k], claims, cell, view, claimed);
    }
    forall a, c | HandedOut(a, claims, c, view, claimed) ensures a in assignments {
      var group := GroupOf(claims, c);
      assert group[0] in group;
    }
  }

  /** Everybody wants the same cell, or everybody another one. */
  ghost predicate Orderly(claims: seq<ClaimRequest>) {
    SameCell(claims) || CellsDistinct(claims)
  }

  lemma HandedOutFacts(a: ZoneAssignment, claims: seq<ClaimRequest>, c: Coord, view: MapView, claimed: set<Coord>)
    requires DistinctDrones(claims) && HandedOut(a, claims, c, view, claimed)
    requires forall k :: 0 <= k < |claims| ==> claims[k].cell !in claimed
    ensures exists k :: 0 <= k < |claims| && claims[k].droneId == a.droneId && claims[k].cell == c
    ensures a.reason != Idle ==> a.cell !in claimed
    ensures CellsDistinct(claims) ==> a.cell == c && a.subzone == Whole
  {
    hide ResolveConflict;
    var group := GroupOf(claims, c);
    AuctionOutcome(group, view, claimed);
    assert group[0] in group;
    AssigneeClaimed(a, group, view, claimed);
    if CellsDistinct(claims) {
      LonelyGroup(claims, c);
      SingleClaimWins(group, view, claimed);
    }
  }

  lemma AssigneeClaimed(a: ZoneAssignment, group: seq<ClaimRequest>, view: MapView, claimed: set<Coord>)
    requires group != [] && ResolveConflict(group, view, claimed).Some?
    requires a in ResolveConflict(group, view, claimed).value.assignments
    ensures exists x :: x in group && x.droneId == a.droneId
  {
    hide ResolveConflict, Sort, ClaimLe;
    var assignments := ResolveConflict(group, view, claimed).value.assignments;
    var i :| 0 <= i < |assignments| && assignments[i] == a;
    AssignmentsFollowRanking(group, view, claimed);
    assert DroneIds(assignments)[i] == a.droneId;
    var x := Ranked(group)[i];
    assert Claimants(Ranked(group))[i] == x.droneId;
    assert x in multiset(Ranked(group));
    assert x in group;
  }

  lemma SingleClaimWins(group: seq<ClaimRequest>, view: MapView, claimed: set<Coord>)
    requires |group| == 1
    ensures ResolveConflict(group, view, claimed).Some?
    ensures ResolveConflict(group, view, claimed).value.assignments
            == [ZoneAssignment(group[0].droneId, group[0].cell, Winner, Whole)]
  {}

  lemma SameContestCompatible(a: ZoneAssignment, b: ZoneAssignment, claims: seq<ClaimRequest>, c: Coord, view: MapView,
                              claimed: set<Coord>)
    requires HandedOut(a, claims, c, view, claimed) && HandedOut(b, claims, c, view, claimed)
    requires a.droneId != b.droneId && a.reason != Idle && b.reason != Idle && a.cell == b.cell
    ensures Halves(a.subzone, b.subzone)
  {
    hide ResolveConflict;
    var group := GroupOf(claims, c);
    AuctionOutcome(group, view, claimed);
    var assignments := ResolveConflict(group, view, claimed).value.assignments;
    var i :| 0 <= i < |assignments| && assignments[i] == a;
    var j :| 0 <= j < |assignments| && assignments[j] == b;
  }

  /** If the claims are orderly, all assignments of the round, at any moment of it, are harmless. */
  lemma OrderlyRoundHarmless(ds: seq<Drone>, assignments: seq<ZoneAssignment>, claims: seq<ClaimRequest>, view: MapView)
    requires DistinctIds(ds) && DistinctDrones(claims) && Orderly(claims)
    requires RoundSoFar(assignments, claims, view, ClaimedZones(ds))
    requires forall k :: 0 <= k < |claims| ==> claims[k].cell !in ClaimedZones(ds)
    requires forall k, i :: 0 <= k < |claims| && 0 <= i < |ds| && ds[i].id == claims[k].droneId ==>
      ds[i].claimed == None && ds[i].target == None
    ensures Harmless(ds, assignments)
  {
    hide HandedOut, ClaimedZones;
    var claimed := ClaimedZones(ds);
    forall i, j | 0 <= i < |assignments| && 0 <= j < |assignments| && i != j
                  && assignments[i].reason != Idle && assignments[j].reason != Idle
                  && assignments[i].cell == assignments[j].cell
      ensures Halves(assignments[i].subzone, assignments[j].subzone)
    {
      var a, b := assignments[i], assignments[j];
      assert HandedOutSomewhere(a, claims, view, claimed) && HandedOutSomewhere(b, claims, view, claimed);
      var c :| HandedOut(a, claims, c, view, claimed);
      var e :| HandedOut(b, claims, e, view, claimed);
      HandedOutFacts(a, claims, c, view, claimed);
      HandedOutFacts(b, claims, e, view, claimed);
      assert c == e;
      SameContestCompatible(a, b, claims, c, view, claimed);
    }
    forall k | 0 <= k < |assignments|
      ensures assignments[k].reason != Idle ==> assignments[k].cell !in claimed
      ensures exists m :: 0 <= m < |claims| && claims[m].droneId == assignments[k].droneId
    {
      assert HandedOutSomewhere(assignments[k], claims, view, claimed);
      var c :| HandedOut(assignments[k], claims, c, view, claimed);
      HandedOutFacts(assignments[k], claims, c, view, claimed);
    }
  }
}
