/** Whole runs of the simulated swarm, event by event, and the safety of the cells the drones hold. */
module SwarmRuns {
  import opened Basics
  import opened Auction
  import opened Consensus
  import opened Drones
  import opened Rounds

  /** The grid size, the drones, whether some contest has had more than one claimant, the two priority
      queues, and the cell released last. */
  datatype Swarm = Swarm(size: nat, drones: seq<Drone>, contended: bool, releases: seq<Coord>, targets: seq<Coord>,
                         released: Option<Coord>)

  datatype Event =
    | Fail(i: nat)
    | Recover(i: nat)
    | GoStale(i: nat)
    | Clear(i: nat)
    | Work(i: nat, position: Coord, status: Status, searchedCells: nat)
    | Requeue
    | QueueTarget(cell: Coord)
    | Priority(i: nat, cell: Coord, reason: Reason)
    | AssignRound(views: DroneId -> MapView, common: MapView, blocked: set<Coord>, nowMs: int,
                  assignments: seq<ZoneAssignment>)

  /** The working drones without a target, in order. */
  function IdleOf(ds: seq<Drone>): (idle: seq<Drone>)
    ensures forall d :: d in idle <==> d in ds && Active(d) && d.target.None?
  {
    if ds == [] then []
    else if Active(ds[0]) && ds[0].target.None? then [ds[0]] + IdleOf(ds[1..])
    else IdleOf(ds[1..])
  }

  function RoundClaims(s: Swarm, views: DroneId -> MapView, blocked: set<Coord>, nowMs: int): seq<ClaimRequest> {
    GatherClaims(IdleOf(s.drones), views, ClaimedZones(s.drones), blocked, !s.contended, nowMs)
  }

  predicate Claims(claims: seq<ClaimRequest>, id: DroneId) {
    exists k :: 0 <= k < |claims| && claims[k].droneId == id
  }

  /** Idle drones show whether they found a cell to claim. */
  function Announce(d: Drone, claims: seq<ClaimRequest>): Drone {
    if Active(d) && d.target.None? then d.(status := if Claims(claims, d.id) then Claiming else IdleStatus) else d
  }

  function Announced(ds: seq<Drone>, claims: seq<ClaimRequest>): (r: seq<Drone>)
    ensures |r| == |ds|
  {
    seq(|ds|, i requires 0 <= i < |ds| => Announce(ds[i], claims))
  }

  /** Some cell has more than one claimant. */
  ghost predicate Contest(claims: seq<ClaimRequest>) {
    exists c :: |GroupOf(claims, c)| > 1
  }

  ghost function HeldRound(s: Swarm, claims: seq<ClaimRequest>, assignments: seq<ZoneAssignment>): Swarm {
    s.(drones := ApplyAll(Announced(s.drones, claims), assignments), contended := s.contended || Contest(claims))
  }

  ghost predicate Possible(s: Swarm, e: Event) {
    match e
    case Fail(i) => i < |s.drones| && Active(s.drones[i])
    case Recover(i) => i < |s.drones| && !Active(s.drones[i])
    case GoStale(i) => i < |s.drones| && s.drones[i].alive
    case Clear(i) => i < |s.drones| && Active(s.drones[i])
    case Work(i, _, _, _) => i < |s.drones| && Active(s.drones[i])
    case Requeue => s.released.Some? && s.released.value !in s.releases
    case QueueTarget(cell) =>
      cell !in s.targets && forall i :: 0 <= i < |s.drones| && Active(s.drones[i]) ==> s.drones[i].target != Some(cell)
    case Priority(i, cell, reason) =>
      && i < |s.drones| && Active(s.drones[i]) && s.drones[i].target.None?
      && ((reason == PriorityReclaim && s.releases != [] && s.releases[0] == cell)
          || (reason == PriorityTarget && s.targets != [] && s.targets[0] == cell))
    case AssignRound(views, common, blocked, nowMs, assignments) =>
      && (forall id :: views(id).size == s.size) && common.size == s.size
      && RoundSoFar(assignments, RoundClaims(s, views, blocked, nowMs), common, ClaimedZones(s.drones))
  }

  ghost function Next(s: Swarm, e: Event): Swarm
    requires Possible(s, e)
  {
    match e
    case Fail(i) => s.(drones := s.drones[i := s.drones[i].(reachable := false)])
    case Recover(i) => s.(drones := s.drones[i := Revived(s.drones[i], s.drones[i].position)])
    case GoStale(i) =>
      var cell := s.drones[i].claimed;
      s.(drones := s.drones[i := MarkedStale(s.drones[i])],
         releases := if cell.Some? && cell.value !in s.releases then s.releases + [cell.value] else s.releases,
         released := if cell.Some? then cell else s.released)
    case Clear(i) => s.(drones := s.drones[i := Cleared(s.drones[i])])
    case Work(i, position, status, searchedCells) =>
      s.(drones := s.drones[i := s.drones[i].(position := position, status := status, searchedCells := searchedCells)])
    case Requeue => s.(releases := [s.released.value] + s.releases)
    case QueueTarget(cell) => s.(targets := s.targets + [cell])
    case Priority(i, cell, reason) =>
      s.(drones := s.drones[i := Applied(s.drones[i], ZoneAssignment(s.drones[i].id, cell, reason, Whole))],
         releases := if reason == PriorityReclaim then s.releases[1..] else s.releases,
         targets := if reason == PriorityReclaim then s.targets else s.targets[1..])
    case AssignRound(views, common, blocked, nowMs, assignments) =>
      HeldRound(s, RoundClaims(s, views, blocked, nowMs), assignments)
  }

  /** The round is carried out to its end: no contest failed for want of votes. */
  ghost predicate Finished(s: Swarm, e: Event) {
    e.AssignRound? ==>
      RoundComplete(e.assignments, RoundClaims(s, e.views, e.blocked, e.nowMs), e.common, ClaimedZones(s.drones))
  }

  /** The one kind of step that needs care: the priority queues hand out a cell without looking. */
  predicate Careful(s: Swarm, e: Event) {
    e.Priority? ==> e.cell !in ClaimedZones(s.drones)
  }

  /** Safety in plain words: two drones that are alive and reachable never hold one cell, unless one of them
      holds its left half and the other its right half. */
  lemma SafeInWords(ds: seq<Drone>)
    ensures Safe(ds) <==> forall i, j :: 0 <= i < j < |ds| && ds[i].alive && ds[i].reachable && ds[j].alive
                                         && ds[j].reachable && ds[i].claimed.Some? && ds[i].claimed == ds[j].claimed ==>
      (ds[i].subzone == Left && ds[j].subzone == Right) || (ds[i].subzone == Right && ds[j].subzone == Left)
  {
    if forall i, j :: 0 <= i < j < |ds| && ds[i].alive && ds[i].reachable && ds[j].alive && ds[j].reachable
                      && ds[i].claimed.Some? && ds[i].claimed == ds[j].claimed ==>
         (ds[i].subzone == Left && ds[j].subzone == Right) || (ds[i].subzone == Right && ds[j].subzone == Left) {
      forall i, j | 0 <= i < j < |ds| && Active(ds[i]) && Active(ds[j]) ensures Apart(ds[i], ds[j]) {}
    } else {
      var i, j :| 0 <= i < j < |ds| && ds[i].alive && ds[i].reachable && ds[j].alive && ds[j].reachable
                  && ds[i].claimed.Some? && ds[i].claimed == ds[j].claimed
                  && !((ds[i].subzone == Left && ds[j].subzone == Right)
                       || (ds[i].subzone == Right && ds[j].subzone == Left));
      assert !Apart(ds[i], ds[j]);
    }
  }

  // ----- the invariant -----

  ghost predicate SwarmInv(s: Swarm) {
    && DistinctIds(s.drones) && Coherent(s.drones) && Safe(s.drones)
    && (s.contended || |s.drones| <= 1 || s.size <= 1)
  }

  lemma {:induction false} IdleDistinct(ds: seq<Drone>)
    requires DistinctIds(ds)
    ensures DistinctIds(IdleOf(ds)) && |IdleOf(ds)| <= |ds|
  {
    if ds != [] {
      IdleDistinct(ds[1..]);
      var rest := IdleOf(ds[1..]);
      forall k | 0 <= k < |rest| ensures rest[k].id != ds[0].id {
        assert rest[k] in rest;
        var i :| 0 <= i < |ds[1..]| && ds[1..][i] == rest[k];
        assert ds[i + 1] == rest[k];
      }
    }
  }

  lemma {:induction false} ClaimsAtMostIdle(idle: seq<Drone>, views: DroneId -> MapView, taken: set<Coord>,
                                            blocked: set<Coord>, shared: bool, nowMs: int)
    ensures |GatherClaims(idle, views, taken, blocked, shared, nowMs)| <= |idle|
  {
    hide SelectNextZone;
    if idle != [] {
      var selection := SelectNextZone(views(idle[0].id), taken + blocked, idle[0].position, shared);
      ClaimsAtMostIdle(idle[1..], views, taken, blocked, shared, nowMs);
      if selection.Some? {
        ClaimsAtMostIdle(idle[1..], views, taken + {selection.value}, blocked, shared, nowMs);
      }
    }
  }

  /** The claims of a round in a state where the invariant holds are orderly, and come from idle drones. */
  lemma RoundClaimFacts(s: Swarm, views: DroneId -> MapView, blocked: set<Coord>, nowMs: int)
    requires DistinctIds(s.drones) && forall id :: views(id).size == s.size
    ensures var claims := RoundClaims(s, views, blocked, nowMs);
      && DistinctDrones(claims)
      && (s.contended || |s.drones| <= 1 || s.size <= 1 ==> Orderly(claims))
      && (forall k :: 0 <= k < |claims| ==> claims[k].cell !in ClaimedZones(s.drones))
      && (forall k, i :: 0 <= k < |claims| && 0 <= i < |s.drones| && s.drones[i].id == claims[k].droneId ==>
            Active(s.drones[i]) && s.drones[i].target.None?)
  {
    hide GatherClaims, ClaimedZones;
    var idle := IdleOf(s.drones);
    var taken := ClaimedZones(s.drones);
    IdleDistinct(s.drones);
    ClaimFacts(idle, views, taken, blocked, !s.contended, nowMs);
    ClaimsAtMostIdle(idle, views, taken, blocked, !s.contended, nowMs);
    var claims := GatherClaims(idle, views, taken, blocked, !s.contended, nowMs);
    if s.size <= 1 {
      forall k | 0 <= k < |claims| ensures claims[k].cell == Coord(0, 0) {
        assert InGrid(claims[k].cell, s.size);
      }
    }
    forall k, i | 0 <= k < |claims| && 0 <= i < |s.drones| && s.drones[i].id == claims[k].droneId
      ensures Active(s.drones[i]) && s.drones[i].target.None?
    {
      assert Among(idle, claims[k].droneId);
      var m :| 0 <= m < |idle| && idle[m].id == claims[k].droneId;
      assert idle[m] in idle;
      var j :| 0 <= j < |s.drones| && s.drones[j] == idle[m];
      assert i == j;
    }
  }

  lemma AnnounceKeeps(ds: seq<Drone>, claims: seq<ClaimRequest>)
    requires DistinctIds(ds) && Coherent(ds) && Safe(ds)
    ensures DistinctIds(Announced(ds, claims)) && Coherent(Announced(ds, claims)) && Safe(Announced(ds, claims))
    ensures ClaimedZones(Announced(ds, claims)) == ClaimedZones(ds)
  {
    hide Claims;
    var r := Announced(ds, claims);
    forall i, j | 0 <= i < j < |r| && Active(r[i]) && Active(r[j]) ensures Apart(r[i], r[j]) {
      assert Apart(ds[i], ds[j]);
    }
    forall c ensures c in ClaimedZones(r) <==> c in ClaimedZones(ds) {
      if c in ClaimedZones(ds) {
        var i :| 0 <= i < |ds| && Active(ds[i]) && ds[i].claimed == Some(c);
        assert Active(r[i]) && r[i].claimed == Some(c);
      }
    }
  }

  /** A round whose assignments come from its contests is a possible event. */
  lemma RoundEvent(s: Swarm, views: DroneId -> MapView, common: MapView, blocked: set<Coord>, nowMs: int,
                   assignments: seq<ZoneAssignment>)
    requires (forall id :: views(id).size == s.size) && common.size == s.size
    requires RoundSoFar(assignments, RoundClaims(s, views, blocked, nowMs), common, ClaimedZones(s.drones))
    ensures Possible(s, AssignRound(views, common, blocked, nowMs, assignments))
    ensures Next(s, AssignRound(views, common, blocked, nowMs, assignments))
            == HeldRound(s, RoundClaims(s, views, blocked, nowMs), assignments)
  {
    hide RoundSoFar, ClaimedZones, HeldRound, RoundClaims;
  }

  /** An assignment round keeps the swarm safe, at every point at which it may stop. */
  lemma RoundKeepsSafe(s: Swarm, views: DroneId -> MapView, common: MapView, blocked: set<Coord>, nowMs: int,
                       assignments: seq<ZoneAssignment>)
    requires SwarmInv(s) && Possible(s, AssignRound(views, common, blocked, nowMs, assignments))
    ensures var ds := ApplyAll(Announced(s.drones, RoundClaims(s, views, blocked, nowMs)), assignments);
      DistinctIds(ds) && Coherent(ds) && Safe(ds)
  {
    hide RoundClaims, ClaimedZones, RoundSoFar, ApplyAll, Safe, Orderly;
    var claims := RoundClaims(s, views, blocked, nowMs);
    RoundClaimFacts(s, views, blocked, nowMs);
    AnnounceKeeps(s.drones, claims);
    var ds := Announced(s.drones, claims);
    OrderlyRoundHarmless(ds, assignments, claims, common);
    HarmlessKeepsSafe(ds, assignments);
  }

  /** Changing one drone so that it holds nothing it did not hold before keeps the swarm safe. */
  lemma OneDroneKeepsSafe(ds: seq<Drone>, i: nat, d: Drone)
    requires DistinctIds(ds) && Coherent(ds) && Safe(ds) && i < |ds|
    requires d.id == ds[i].id && d.target == d.claimed
    requires d.claimed.None?
        || (d.claimed == ds[i].claimed && d.subzone == ds[i].subzone && (Active(d) ==> Active(ds[i])))
    ensures DistinctIds(ds[i := d]) && Coherent(ds[i := d]) && Safe(ds[i := d])
  {
    var r := ds[i := d];
    forall j, k | 0 <= j < k < |r| && Active(r[j]) && Active(r[k]) ensures Apart(r[j], r[k]) {
      assert Active(ds[j]) && Active(ds[k]) ==> Apart(ds[j], ds[k]);
    }
  }

  /** A priority step keeps the swarm safe exactly when the cell it hands out is free. */
  lemma PriorityExact(s: Swarm, i: nat, cell: Coord, reason: Reason)
    requires SwarmInv(s) && Possible(s, Priority(i, cell, reason))
    ensures DistinctIds(Next(s, Priority(i, cell, reason)).drones)
    ensures Coherent(Next(s, Priority(i, cell, reason)).drones)
    ensures Safe(Next(s, Priority(i, cell, reason)).drones) <==> cell !in ClaimedZones(s.drones)
  {
    var ds := s.drones;
    var r := Next(s, Priority(i, cell, reason)).drones;
    assert Active(r[i]) && r[i].claimed == Some(cell) && r[i].subzone == Whole;
    if cell in ClaimedZones(ds) {
      var j :| 0 <= j < |ds| && Active(ds[j]) && ds[j].claimed == Some(cell);
      assert r[j] == ds[j];
      assert !Apart(r[i], r[j]) && !Apart(r[j], r[i]);
    } else {
      forall j, k | 0 <= j < k < |r| && Active(r[j]) && Active(r[k]) ensures Apart(r[j], r[k]) {
        assert j != i && k != i ==> Apart(ds[j], ds[k]);
        assert j != i ==> r[j].claimed != Some(cell);
        assert k != i ==> r[k].claimed != Some(cell);
      }
    }
  }

  lemma StepKeepsInv(s: Swarm, e: Event)
    requires SwarmInv(s) && Possible(s, e) && Careful(s, e)
    ensures SwarmInv(Next(s, e))
  {
    hide Safe, RoundClaims, ClaimedZones, ApplyAll, RoundSoFar;
    match e
    case AssignRound(views, common, blocked, nowMs, assignments) =>
      RoundKeepsSafe(s, views, common, blocked, nowMs, assignments);
    case Priority(i, cell, reason) =>
      PriorityExact(s, i, cell, reason);
    case Requeue =>
    case QueueTarget(_) =>
    case Fail(i) => OneDroneKeepsSafe(s.drones, i, s.drones[i].(reachable := false));
    case Recover(i) => OneDroneKeepsSafe(s.drones, i, Revived(s.drones[i], s.drones[i].position));
    case GoStale(i) => OneDroneKeepsSafe(s.drones, i, MarkedStale(s.drones[i]));
    case Clear(i) => OneDroneKeepsSafe(s.drones, i, Cleared(s.drones[i]));
    case Work(i, position, status, searchedCells) =>
      OneDroneKeepsSafe(s.drones, i,
                        s.drones[i].(position := position, status := status, searchedCells := searchedCells));
  }

  /** A finished round overlooks nobody: an idle drone that found a cell to claim is given what the auction
      of that cell decides for it, and one that found none stays idle. */
  lemma RoundServesAll(s: Swarm, e: Event, i: nat)
    requires e.AssignRound? && Possible(s, e) && Finished(s, e) && DistinctIds(s.drones)
    requires i < |s.drones| && Active(s.drones[i]) && s.drones[i].target.None?
    ensures var claims := RoundClaims(s, e.views, e.blocked, e.nowMs);
      var d := Announce(s.drones[i], claims);
      && (Claims(claims, s.drones[i].id) ==>
            exists k :: 0 <= k < |e.assignments| && e.assignments[k].droneId == s.drones[i].id
                        && Next(s, e).drones[i] == Applied(d, e.assignments[k]))
      && (!Claims(claims, s.drones[i].id) ==> Next(s, e).drones[i] == d && d.status == IdleStatus)
  {
    hide RoundClaims, ApplyAll, HandedOut, GroupOf;
    var claims, id := RoundClaims(s, e.views, e.blocked, e.nowMs), s.drones[i].id;
    ApplyAllAt(Announced(s.drones, claims), e.assignments, i);
    if Claims(claims, id) {
      var k :| 0 <= k < |claims| && claims[k].droneId == id;
      CompleteRoundServes(e.assignments, claims, e.common, ClaimedZones(s.drones), k);
    } else {
      forall k | 0 <= k < |e.assignments| ensures e.assignments[k].droneId != id {
        assert HandedOutSomewhere(e.assignments[k], claims, e.common, ClaimedZones(s.drones));
        OnlyClaimants(e.assignments[k], claims, e.common, ClaimedZones(s.drones));
      }
    }
  }

  lemma OnlyClaimants(a: ZoneAssignment, claims: seq<ClaimRequest>, view: MapView, claimed: set<Coord>)
    requires HandedOutSomewhere(a, claims, view, claimed)
    ensures Claims(claims, a.droneId)
  {
    hide ResolveConflict, GroupOf;
    var c :| HandedOut(a, claims, c, view, claimed);
    var group := GroupOf(claims, c);
    ResolveShape(group, view, claimed);
    AssigneeClaimed(a, group, view, claimed);
    var x :| x in group && x.droneId == a.droneId;
    assert x in claims;
    var k :| 0 <= k < |claims| && claims[k] == x;
  }

  // ----- runs -----

  ghost predicate Runs(s: Swarm, events: seq<Event>, t: Swarm)
    decreases |events|
  {
    if events == [] then s == t
    else Possible(s, events[0]) && Runs(Next(s, events[0]), events[1..], t)
  }

  lemma {:induction false} RunsThen(s: Swarm, events: seq<Event>, m: Swarm, more: seq<Event>, t: Swarm)
    requires Runs(s, events, m) && Runs(m, more, t)
    ensures Runs(s, events + more, t)
    decreases |events|
  {
    hide Possible, Next;
    if events == [] {
      assert events + more == more;
    } else {
      assert (events + more)[1..] == events[1..] + more;
      RunsThen(Next(s, events[0]), events[1..], m, more, t);
    }
  }

  lemma RunsOne(s: Swarm, e: Event)
    requires Possible(s, e)
    ensures Runs(s, [e], Next(s, e))
  {
    assert Runs(Next(s, e), [e][1..], Next(s, e));
  }

  lemma RunsNone(s: Swarm)
    ensures Runs(s, [], s)
  {}

  /** Every priority step of the run hands out a free cell. */
  ghost predicate AllCareful(s: Swarm, events: seq<Event>)
    decreases |events|
  {
    events == [] ||
    (Possible(s, events[0]) && Careful(s, events[0]) && AllCareful(Next(s, events[0]), events[1..]))
  }

  lemma {:induction false} CarefulRunKeepsInv(s: Swarm, events: seq<Event>, t: Swarm)
    requires SwarmInv(s) && Runs(s, events, t) && AllCareful(s, events)
    ensures SwarmInv(t)
    decreases |events|
  {
    hide Possible, Next, Careful, SwarmInv;
    if events != [] {
      StepKeepsInv(s, events[0]);
      CarefulRunKeepsInv(Next(s, events[0]), events[1..], t);
    }
  }

  /** Without priority steps a run keeps the invariant whatever happens. */
  lemma {:induction false} NoHandoutsKeepInv(s: Swarm, events: seq<Event>, t: Swarm)
    requires SwarmInv(s) && Runs(s, events, t) && forall m :: 0 <= m < |events| ==> !events[m].Priority?
    ensures SwarmInv(t)
    decreases |events|
  {
    hide Possible, Next, SwarmInv;
    if events != [] {
      StepKeepsInv(s, events[0]);
      NoHandoutsKeepInv(Next(s, events[0]), events[1..], t);
    }
  }

  // ----- several priority steps -----

  ghost predicate AllPriority(events: seq<Event>) {
    forall m :: 0 <= m < |events| ==> events[m].Priority?
  }

  ghost function CellsOf(events: seq<Event>): (cells: seq<Coord>)
    requires AllPriority(events)
    ensures |cells| == |events|
  {
    seq(|events|, m requires 0 <= m < |events| => events[m].cell)
  }

  /** The cells are pairwise different and nobody holds any of them. */
  ghost predicate CellsFree(cells: seq<Coord>, zones: set<Coord>) {
    Distinct(cells) && forall m :: 0 <= m < |cells| ==> cells[m] !in zones
  }

  lemma CellsFreeNext(cells: seq<Coord>, zones: set<Coord>)
    requires cells != []
    ensures CellsFree(cells, zones) <==> cells[0] !in zones && CellsFree(cells[1..], zones + {cells[0]})
  {
    var rest := cells[1..];
    assert forall m :: 0 < m < |cells| ==> cells[m] == rest[m - 1];
    if cells[0] !in zones && CellsFree(rest, zones + {cells[0]}) {
      forall m, n | 0 <= m < n < |cells| ensures cells[m] != cells[n] {
        assert rest[n - 1] !in zones + {cells[0]};
        assert m > 0 ==> rest[m - 1] != rest[n - 1];
      }
    }
    if CellsFree(cells, zones) {
      forall m | 0 <= m < |rest| ensures rest[m] !in zones + {cells[0]} {
        assert cells[0] != cells[m + 1];
      }
    }
  }

  /** A priority step adds one cell to those held, and changes nobody else. */
  lemma PriorityAdds(s: Swarm, i: nat, cell: Coord, reason: Reason)
    requires DistinctIds(s.drones) && Coherent(s.drones) && Possible(s, Priority(i, cell, reason))
    ensures var t := Next(s, Priority(i, cell, reason));
      && DistinctIds(t.drones) && Coherent(t.drones) && |t.drones| == |s.drones|
      && (forall j :: 0 <= j < |s.drones| && j != i ==> t.drones[j] == s.drones[j])
      && ClaimedZones(t.drones) == ClaimedZones(s.drones) + {cell}
  {
    var t := Next(s, Priority(i, cell, reason));
    assert Active(t.drones[i]) && t.drones[i].claimed == Some(cell);
    forall c ensures c in ClaimedZones(t.drones) <==> c in ClaimedZones(s.drones) + {cell} {
      if c in ClaimedZones(s.drones) {
        var j :| 0 <= j < |s.drones| && Active(s.drones[j]) && s.drones[j].claimed == Some(c);
        assert t.drones[j] == s.drones[j];
      }
      if c in ClaimedZones(t.drones) {
        var j :| 0 <= j < |t.drones| && Active(t.drones[j]) && t.drones[j].claimed == Some(c);
        assert j != i ==> t.drones[j] == s.drones[j];
      }
    }
  }

  ghost predicate Hands(e: Event) {
    e.Priority? || e.AssignRound?
  }

  /** Handing out more cells to idle drones never mends a double booking. */
  lemma UnsafeStays(s: Swarm, e: Event)
    requires DistinctIds(s.drones) && Coherent(s.drones) && !Safe(s.drones)
    requires Possible(s, e) && Hands(e)
    ensures DistinctIds(Next(s, e).drones) && Coherent(Next(s, e).drones) && !Safe(Next(s, e).drones)
  {
    hide ClaimedZones, RoundClaims, ApplyAll, RoundSoFar;
    var i, j :| 0 <= i < j < |s.drones| && Active(s.drones[i]) && Active(s.drones[j])
        && !Apart(s.drones[i], s.drones[j]);
    var t := Next(s, e);
    if e.Priority? {
      PriorityAdds(s, e.i, e.cell, e.reason);
      assert t.drones[i] == s.drones[i] && t.drones[j] == s.drones[j];
    } else {
      RoundLeavesHolders(s, e, i);
      RoundLeavesHolders(s, e, j);
      RoundKeepsShape(s, e);
    }
    assert !Apart(t.drones[i], t.drones[j]);
  }

  lemma RoundKeepsShape(s: Swarm, e: Event)
    requires DistinctIds(s.drones) && Coherent(s.drones) && Possible(s, e) && e.AssignRound?
    ensures DistinctIds(Next(s, e).drones) && Coherent(Next(s, e).drones) && |Next(s, e).drones| == |s.drones|
  {
    hide RoundClaims, ClaimedZones, ApplyAll, HandedOutSomewhere;
    var ds := Announced(s.drones, RoundClaims(s, e.views, e.blocked, e.nowMs));
    forall i | 0 <= i < |ds| ensures ApplyAll(ds, e.assignments)[i].target == ApplyAll(ds, e.assignments)[i].claimed {
      AfterRound(ds, e.assignments, i);
    }
  }

  lemma RoundLeavesHolders(s: Swarm, e: Event, i: nat)
    requires DistinctIds(s.drones) && Possible(s, e) && e.AssignRound?
    requires i < |s.drones| && s.drones[i].target.Some?
    ensures Next(s, e).drones[i] == s.drones[i]
  {
    hide RoundClaims, ClaimedZones, ApplyAll, HandedOutSomewhere;
    var claims := RoundClaims(s, e.views, e.blocked, e.nowMs);
    ApplyAllAt(Announced(s.drones, claims), e.assignments, i);
    RoundClaimFacts(s, e.views, e.blocked, e.nowMs);
    forall k | 0 <= k < |e.assignments| ensures e.assignments[k].droneId != s.drones[i].id {
      OnlyClaimants(e.assignments[k], claims, e.common, ClaimedZones(s.drones));
    }
  }

  /** Several priority steps keep the swarm safe exactly when the cells they hand out are pairwise different
      and nobody held any of them before. */
  lemma {:induction false} PrioritiesSafeExactly(s: Swarm, events: seq<Event>, t: Swarm)
    requires SwarmInv(s) && Runs(s, events, t) && AllPriority(events)
    ensures Safe(t.drones) <==> CellsFree(CellsOf(events), ClaimedZones(s.drones))
    ensures Safe(t.drones) <==> AllCareful(s, events)
    ensures DistinctIds(t.drones) && Coherent(t.drones) && (Safe(t.drones) ==> SwarmInv(t))
    decreases |events|
  {
    hide Possible, Next, ClaimedZones, CellsFree, Safe;
    if events == [] {
      NoCells(ClaimedZones(s.drones));
      assert CellsOf(events) == [];
    } else {
      var e, cells := events[0], CellsOf(events);
      var next := Next(s, e);
      assert CellsOf(events[1..]) == cells[1..];
      CellsFreeNext(cells, ClaimedZones(s.drones));
      PriorityExact(s, e.i, e.cell, e.reason);
      PriorityAdds(s, e.i, e.cell, e.reason);
      if Safe(next.drones) {
        StepKeepsInv(s, e);
        PrioritiesSafeExactly(next, events[1..], t);
      } else {
        UnsafeRunStays(next, events[1..], t);
      }
    }
  }

  lemma NoCells(zones: set<Coord>)
    ensures CellsFree([], zones)
  {}

  lemma {:induction false} UnsafeRunStays(s: Swarm, events: seq<Event>, t: Swarm)
    requires DistinctIds(s.drones) && Coherent(s.drones) && !Safe(s.drones)
    requires Runs(s, events, t) && forall m :: 0 <= m < |events| ==> Hands(events[m])
    ensures DistinctIds(t.drones) && Coherent(t.drones) && !Safe(t.drones)
    decreases |events|
  {
    hide Possible, Next, Safe, Coherent, DistinctIds;
    if events != [] {
      UnsafeStays(s, events[0]);
      UnsafeRunStays(Next(s, events[0]), events[1..], t);
    }
  }

  /** The swarm as constructed: everybody works, nobody holds anything, no contest yet. */
  ghost predicate Initial(s: Swarm) {
    && DistinctIds(s.drones) && !s.contended && s.releases == s.targets == [] && s.released.None?
    && forall i :: 0 <= i < |s.drones| ==> Active(s.drones[i]) && s.drones[i].target == s.drones[i].claimed == None
  }

  lemma {:induction false} AllIdle(ds: seq<Drone>)
    requires forall i :: 0 <= i < |ds| ==> Active(ds[i]) && ds[i].target.None?
    ensures IdleOf(ds) == ds
  {
    if ds != [] {
      AllIdle(ds[1..]);
    }
  }

  lemma FirstRoundContends(s: Swarm, view: MapView, blocked: set<Coord>, nowMs: int, views: DroneId -> MapView)
    requires Initial(s) && view.size == s.size && (forall id :: views(id) == view)
    requires s.size >= 2 && |s.drones| >= 2 && |blocked| <= 1
    ensures Contest(RoundClaims(s, views, blocked, nowMs))
  {
    hide GatherClaims, SelectNextZone;
    AllIdle(s.drones);
    var taken := ClaimedZones(s.drones);
    assert taken == {};
    var from := s.drones[0].position;
    SharedClaims(s.drones, views, view, taken, blocked, nowMs, from);
    var a, b := Coord(0, 0), Coord(1, 1);
    if a in blocked && b in blocked {
      SubsetSize({a, b}, blocked);
    }
    assert InGrid(a, view.size) && InGrid(b, view.size);
    var choice := SelectNextZone(view, taken + blocked, from, true);
    assert choice.Some?;
    var claims := RoundClaims(s, views, blocked, nowMs);
    WholeGroup(claims, choice.value);
    assert |GroupOf(claims, choice.value)| > 1;
  }

  /** The first round starts from equal maps, so its claims are orderly; afterwards contention has happened. */
  lemma FirstRoundInv(s: Swarm, view: MapView, blocked: set<Coord>, nowMs: int, views: DroneId -> MapView,
                      assignments: seq<ZoneAssignment>)
    requires Initial(s) && (forall id :: views(id) == view) && |blocked| <= 1
    requires Possible(s, AssignRound(views, view, blocked, nowMs, assignments))
    ensures SwarmInv(Next(s, AssignRound(views, view, blocked, nowMs, assignments)))
  {
    hide Safe, ClaimedZones, ApplyAll, RoundSoFar, GatherClaims, SelectNextZone, Orderly;
    var claims := RoundClaims(s, views, blocked, nowMs);
    assert Safe(s.drones) by { InitiallySafe(s); }
    RoundClaimFacts(s, views, blocked, nowMs);
    assert Orderly(claims) by { FirstClaimsOrderly(s, view, blocked, nowMs, views); }
    AnnounceKeeps(s.drones, claims);
    var ds := Announced(s.drones, claims);
    hide RoundClaims;
    OrderlyRoundHarmless(ds, assignments, claims, view);
    HarmlessKeepsSafe(ds, assignments);
    if s.size >= 2 && |s.drones| >= 2 {
      FirstRoundContends(s, view, blocked, nowMs, views);
    }
  }

  lemma InitiallySafe(s: Swarm)
    requires Initial(s)
    ensures Safe(s.drones) && Coherent(s.drones)
  {}

  lemma FirstClaimsOrderly(s: Swarm, view: MapView, blocked: set<Coord>, nowMs: int, views: DroneId -> MapView)
    requires Initial(s) && (forall id :: views(id) == view)
    ensures Orderly(RoundClaims(s, views, blocked, nowMs))
  {
    hide GatherClaims, SelectNextZone;
    AllIdle(s.drones);
    SharedClaims(s.drones, views, view, ClaimedZones(s.drones), blocked, nowMs, Coord(0, 0));
  }

  /** The main result. Whatever fails, recovers, goes silent, moves, completes or is assigned, in any
      order, no two working drones ever hold one cell except as the halves of a split, provided the
      priority queues only hand out cells that nobody holds. Maps may differ and change arbitrarily
      after the first round, and votes may be lost or false. */
  lemma RunsAreSafe(s: Swarm, view: MapView, blocked: set<Coord>, views: DroneId -> MapView,
                    assignments: seq<ZoneAssignment>, events: seq<Event>, t: Swarm)
    requires Initial(s) && (forall id :: views(id) == view) && |blocked| <= 1
    requires Possible(s, AssignRound(views, view, blocked, 0, assignments))
    requires Runs(Next(s, AssignRound(views, view, blocked, 0, assignments)), events, t)
    requires AllCareful(Next(s, AssignRound(views, view, blocked, 0, assignments)), events)
    ensures Safe(t.drones) && DistinctIds(t.drones)
  {
    FirstRoundInv(s, view, blocked, 0, views, assignments);
    CarefulRunKeepsInv(Next(s, AssignRound(views, view, blocked, 0, assignments)), events, t);
  }

}
