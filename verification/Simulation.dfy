/** The simulated swarm: one object that fails, revives, releases and assigns drones tick by tick. */
module Simulation {
  import opened Basics
  import opened Sorting
  import opened Auction
  import opened Consensus
  import opened Drones
  import opened Rounds
  import opened SwarmRuns
  import opened Heartbeats
  import opened FailureDetector

  // ----- lists of idle drones -----

  /** The positions of the idle drones from index k on. */
  function IdleFrom(ds: seq<Drone>, k: nat): (indices: seq<nat>)
    requires k <= |ds|
    ensures forall m :: 0 <= m < |indices| ==>
      k <= indices[m] < |ds| && Active(ds[indices[m]]) && ds[indices[m]].target.None?
    ensures forall m, n :: 0 <= m < n < |indices| ==> indices[m] < indices[n]
    decreases |ds| - k
  {
    if k == |ds| then []
    else if Active(ds[k]) && ds[k].target.None? then [k] + IdleFrom(ds, k + 1)
    else IdleFrom(ds, k + 1)
  }

  function At(ds: seq<Drone>, indices: seq<nat>): seq<Drone>
    requires forall m :: 0 <= m < |indices| ==> indices[m] < |ds|
  {
    seq(|indices|, m requires 0 <= m < |indices| => ds[indices[m]])
  }

  lemma AtCons(ds: seq<Drone>, k: nat, rest: seq<nat>)
    requires k < |ds| && forall m :: 0 <= m < |rest| ==> rest[m] < |ds|
    ensures At(ds, [k] + rest) == [ds[k]] + At(ds, rest)
  {
    hide Active;
  }

  lemma IdleOfCons(d: Drone, rest: seq<Drone>)
    ensures IdleOf([d] + rest) == (if Active(d) && d.target.None? then [d] else []) + IdleOf(rest)
  {
    assert ([d] + rest)[1..] == rest;
  }

  lemma {:induction false} IdleFromIsIdleOf(ds: seq<Drone>, k: nat)
    requires k <= |ds|
    ensures At(ds, IdleFrom(ds, k)) == IdleOf(ds[k..])
    decreases |ds| - k
  {
    hide Active, At, IdleOf;
    if k < |ds| {
      IdleFromIsIdleOf(ds, k + 1);
      assert ds[k..] == [ds[k]] + ds[k + 1..];
      IdleOfCons(ds[k], ds[k + 1..]);
      AtCons(ds, k, IdleFrom(ds, k + 1));
    } else {
      NobodyIdle(ds);
    }
  }

  lemma NobodyIdle(ds: seq<Drone>)
    ensures At(ds, []) == [] && IdleOf([]) == []
  {}

  lemma {:induction false} IdleFromCongruent(ds: seq<Drone>, es: seq<Drone>, k: nat)
    requires |ds| == |es| && k <= |ds|
    requires forall i :: k <= i < |ds| ==>
      (Active(ds[i]) && ds[i].target.None? <==> Active(es[i]) && es[i].target.None?)
    ensures IdleFrom(ds, k) == IdleFrom(es, k)
    decreases |ds| - k
  {
    if k < |ds| {
      IdleFromCongruent(ds, es, k + 1);
    }
  }

  /** Giving the first idle drone a cell removes it from the list and leaves the others. */
  lemma {:induction false} IdleAfterPop(ds: seq<Drone>, es: seq<Drone>, k: nat)
    requires |ds| == |es| && k <= |ds| && IdleFrom(ds, k) != []
    requires var first := IdleFrom(ds, k)[0];
      && !(Active(es[first]) && es[first].target.None?)
      && forall i :: k <= i < |ds| && i != first ==>
           (Active(ds[i]) && ds[i].target.None? <==> Active(es[i]) && es[i].target.None?)
    ensures IdleFrom(es, k) == IdleFrom(ds, k)[1..]
    decreases |ds| - k
  {
    if Active(ds[k]) && ds[k].target.None? {
      IdleFromCongruent(ds, es, k + 1);
    } else {
      IdleAfterPop(ds, es, k + 1);
    }
  }

  // ----- grouping claims by cell -----

  lemma {:induction false} GroupOfAppend(claims: seq<ClaimRequest>, x: ClaimRequest, c: Coord)
    ensures GroupOf(claims + [x], c) == GroupOf(claims, c) + (if x.cell == c then [x] else [])
  {
    if claims == [] {
      assert [x][1..] == [];
    } else {
      assert (claims + [x])[1..] == claims[1..] + [x];
      GroupOfAppend(claims[1..], x, c);
    }
  }

  method GroupByCell(claims: seq<ClaimRequest>) returns (grouped: map<Coord, seq<ClaimRequest>>)
    ensures forall c :: c in grouped <==> GroupOf(claims, c) != []
    ensures forall c :: c in grouped ==> grouped[c] == GroupOf(claims, c)
  {
    grouped := map[];
    for i := 0 to |claims|
      invariant forall c :: c in grouped <==> GroupOf(claims[..i], c) != []
      invariant forall c :: c in grouped ==> grouped[c] == GroupOf(claims[..i], c)
    {
      var claim := claims[i];
      assert claims[..i + 1] == claims[..i] + [claim];
      forall c
        ensures GroupOf(claims[..i + 1], c) == GroupOf(claims[..i], c) + (if claim.cell == c then [claim] else [])
      {
        GroupOfAppend(claims[..i], claim, c);
      }
      var before := if claim.cell in grouped then grouped[claim.cell] else [];
      grouped := grouped[claim.cell := before + [claim]];
    }
    assert claims[..|claims|] == claims;
  }

  // ----- the assignments of a round, contest by contest -----

  ghost predicate FromCells(a: ZoneAssignment, claims: seq<ClaimRequest>, cells: set<Coord>, view: MapView,
                            claimed: set<Coord>) {
    exists c :: c in cells && HandedOut(a, claims, c, view, claimed)
  }

  /** Exactly the assignments handed out by the contests on the given cells. */
  ghost predicate SoFar(assignments: seq<ZoneAssignment>, claims: seq<ClaimRequest>, cells: set<Coord>, view: MapView,
                        claimed: set<Coord>)
  {
    && DistinctAssignees(assignments)
    && (forall k :: 0 <= k < |assignments| ==> FromCells(assignments[k], claims, cells, view, claimed))
    && forall a, c :: c in cells && HandedOut(a, claims, c, view, claimed) ==> a in assignments
  }

  lemma SoFarIsRound(assignments: seq<ZoneAssignment>, claims: seq<ClaimRequest>, cells: set<Coord>, view: MapView,
                     claimed: set<Coord>)
    requires SoFar(assignments, claims, cells, view, claimed)
    ensures RoundSoFar(assignments, claims, view, claimed)
  {
    hide HandedOut;
    forall k | 0 <= k < |assignments| ensures HandedOutSomewhere(assignments[k], claims, view, claimed) {
      assert FromCells(assignments[k], claims, cells, view, claimed);
    }
  }

  lemma SoFarIsComplete(assignments: seq<ZoneAssignment>, claims: seq<ClaimRequest>, cells: set<Coord>, view: MapView,
                        claimed: set<Coord>)
    requires SoFar(assignments, claims, cells, view, claimed)
    requires forall c :: GroupOf(claims, c) != [] ==> c in cells
    ensures RoundComplete(assignments, claims, view, claimed)
  {
    hide RoundSoFar, GroupOf;
    SoFarIsRound(assignments, claims, cells, view, claimed);
    forall a, c | HandedOut(a, claims, c, view, claimed) ensures a in assignments {
      assert GroupOf(claims, c) != [];
    }
  }

  /** The outcome of one more contest, in whatever order the vote left it, extends the round. */
  lemma OneMoreContest(assignments: seq<ZoneAssignment>, claims: seq<ClaimRequest>, cells: set<Coord>, view: MapView,
                       claimed: set<Coord>, c: Coord, outcome: seq<ZoneAssignment>)
    requires DistinctDrones(claims) && SoFar(assignments, claims, cells, view, claimed) && c !in cells
    requires GroupOf(claims, c) != [] && ResolveConflict(GroupOf(claims, c), view, claimed).Some?
    requires multiset(outcome) == multiset(ResolveConflict(GroupOf(claims, c), view, claimed).value.assignments)
    ensures SoFar(assignments + outcome, claims, cells + {c}, view, claimed)
  {
    hide ResolveConflict, FromCells;
    var group := GroupOf(claims, c);
    var decided := ResolveConflict(group, view, claimed).value.assignments;
    GroupDrones(claims, c);
    AssigneesDistinct(group, view, claimed);
    SameElements(outcome, decided);
    PermutedAssignees(decided, outcome);
    forall k | 0 <= k < |outcome| ensures HandedOut(outcome[k], claims, c, view, claimed) {
      assert outcome[k] in outcome;
    }
    forall a | HandedOut(a, claims, c, view, claimed) ensures a in outcome {
      assert a in decided;
    }
    hide HandedOut;
    forall i, j | 0 <= i < |assignments| && 0 <= j < |outcome| ensures assignments[i].droneId != outcome[j].droneId {
      var e := ContestOf(assignments[i], claims, cells, view, claimed);
      DifferentContests(assignments[i], outcome[j], claims, e, c, view, claimed);
    }
    var all := assignments + outcome;
    forall k | 0 <= k < |all| ensures FromCells(all[k], claims, cells + {c}, view, claimed) {
      if k < |assignments| {
        var e := ContestOf(assignments[k], claims, cells, view, claimed);
        IsFromCells(all[k], claims, cells + {c}, view, claimed, e);
      } else {
        IsFromCells(all[k], claims, cells + {c}, view, claimed, c);
      }
    }
  }

  lemma ContestOf(a: ZoneAssignment, claims: seq<ClaimRequest>, cells: set<Coord>, view: MapView, claimed: set<Coord>)
      returns (c: Coord)
    requires FromCells(a, claims, cells, view, claimed)
    ensures c in cells && HandedOut(a, claims, c, view, claimed)
  {
    hide HandedOut;
    c :| c in cells && HandedOut(a, claims, c, view, claimed);
  }

  lemma IsFromCells(a: ZoneAssignment, claims: seq<ClaimRequest>, cells: set<Coord>, view: MapView, claimed: set<Coord>,
                    c: Coord)
    requires c in cells && HandedOut(a, claims, c, view, claimed)
    ensures FromCells(a, claims, cells, view, claimed)
  {
    hide HandedOut;
  }

  lemma DifferentContests(a: ZoneAssignment, b: ZoneAssignment, claims: seq<ClaimRequest>, c: Coord, e: Coord,
                          view: MapView, claimed: set<Coord>)
    requires DistinctDrones(claims) && c != e
    requires HandedOut(a, claims, c, view, claimed) && HandedOut(b, claims, e, view, claimed)
    ensures a.droneId != b.droneId
  {
    hide ResolveConflict;
    ResolveShape(GroupOf(claims, c), view, claimed);
    ResolveShape(GroupOf(claims, e), view, claimed);
    AssigneeClaimed(a, GroupOf(claims, c), view, claimed);
    AssigneeClaimed(b, GroupOf(claims, e), view, claimed);
    var x :| x in GroupOf(claims, c) && x.droneId == a.droneId;
    var y :| y in GroupOf(claims, e) && y.droneId == b.droneId;
    var i :| 0 <= i < |claims| && claims[i] == x;
    var j :| 0 <= j < |claims| && claims[j] == y;
  }

  lemma PermutedAssignees(a: seq<ZoneAssignment>, b: seq<ZoneAssignment>)
    requires DistinctAssignees(a) && multiset(a) == multiset(b)
    ensures DistinctAssignees(b)
  {
    PermutedDistinct(a, b);
    SameElements(a, b);
    forall i, j | 0 <= i < j < |b| ensures b[i].droneId != b[j].droneId {
      assert b[i] in b && b[j] in b;
      var k :| 0 <= k < |a| && a[k] == b[i];
      var m :| 0 <= m < |a| && a[m] == b[j];
    }
  }

  lemma {:induction false} ApplyAllThen(ds: seq<Drone>, a: seq<ZoneAssignment>, b: seq<ZoneAssignment>)
    ensures ApplyAll(ds, a + b) == ApplyAll(ApplyAll(ds, a), b)
    decreases |b|
  {
    hide ApplyTo;
    if b == [] {
      assert a + b == a;
    } else {
      ApplyAllThen(ds, a, b[..|b| - 1]);
      assert (a + b)[..|a + b| - 1] == a + b[..|b| - 1];
    }
  }

  /** An idle drone's own claim is the first of the list that starts with it. */
  lemma FirstClaims(idle: seq<Drone>, views: DroneId -> MapView, taken: set<Coord>, blocked: set<Coord>, shared: bool,
                    nowMs: int)
    requires idle != [] && DistinctIds(idle)
    ensures var selection := SelectNextZone(views(idle[0].id), taken + blocked, idle[0].position, shared);
      Claims(GatherClaims(idle, views, taken, blocked, shared, nowMs), idle[0].id) <==> selection.Some?
  {
    hide SelectNextZone;
    var selection := SelectNextZone(views(idle[0].id), taken + blocked, idle[0].position, shared);
    var next := if shared || selection.None? then taken else taken + {selection.value};
    ClaimFacts(idle[1..], views, next, blocked, shared, nowMs);
    var claims := GatherClaims(idle, views, taken, blocked, shared, nowMs);
    if selection.Some? {
      assert claims[0].droneId == idle[0].id;
    } else {
      forall k | 0 <= k < |claims| ensures claims[k].droneId != idle[0].id {
        assert Among(idle[1..], claims[k].droneId);
        var i :| 0 <= i < |idle[1..]| && idle[1..][i].id == claims[k].droneId;
        assert idle[1..][i] == idle[i + 1];
      }
    }
  }

  // ----- the simulation object -----

  /** The steps that hand the cells of a queue, from the front, to the idle drones in order. */
  ghost function Served(idle: seq<nat>, queue: seq<Coord>, reason: Reason): seq<Event> {
    if idle == [] || queue == [] then []
    else [Priority(idle[0], queue[0], reason)] + Served(idle[1..], queue[1..], reason)
  }

  lemma ServedNext(events: seq<Event>, idle: seq<nat>, queue: seq<Coord>, reason: Reason)
    requires idle != [] && queue != []
    ensures events + [Priority(idle[0], queue[0], reason)] + Served(idle[1..], queue[1..], reason)
            == events + Served(idle, queue, reason)
    ensures Unserved(idle[1..], queue[1..]) == Unserved(idle, queue)
  {}

  lemma NothingServed(events: seq<Event>, idle: seq<nat>, queue: seq<Coord>, reason: Reason)
    requires idle == [] || queue == []
    ensures events + Served(idle, queue, reason) == events && Unserved(idle, queue) == (idle, queue)
  {}

  /** A recalled drone is the only idle one. */
  ghost function IdleAfterRecall(recalled: Option<nat>, idle: seq<nat>): seq<nat> {
    if recalled.Some? then [recalled.value] else idle
  }

  ghost function Recalling(recalled: Option<nat>): seq<Event> {
    if recalled.Some? then [Clear(recalled.value)] else []
  }

  /** The drones and cells left over when one of the two has run out. */
  ghost function Unserved(idle: seq<nat>, queue: seq<Coord>): (r: (seq<nat>, seq<Coord>))
    ensures r.0 == [] || r.1 == []
    ensures idle == [] ==> r.0 == []
  {
    if idle == [] || queue == [] then (idle, queue) else Unserved(idle[1..], queue[1..])
  }

  /** The priority steps of a pass: a recall, if any, then both queues served. */
  ghost function PriorityEvents(s: Swarm, recalled: Option<nat>): seq<Event> {
    var idle := IdleAfterRecall(recalled, IdleFrom(s.drones, 0));
    Recalling(recalled) + Served(idle, s.releases, PriorityReclaim)
    + Served(Unserved(idle, s.releases).0, s.targets, PriorityTarget)
  }

  /** An assignment pass: what is queued, the swarm then, the drone recalled, the swarm after the priority
      steps, the round (if anybody is still idle) and the swarm in the end. */
  datatype Pass = Pass(queued: seq<Event>, ready: Swarm, recalled: Option<nat>, served: Swarm, round: Option<Event>,
                       reached: Swarm)

  ghost function PassEvents(p: Pass): seq<Event> {
    p.queued + PriorityEvents(p.ready, p.recalled) + (if p.round.Some? then [p.round.value] else [])
  }

  ghost predicate Queuing(events: seq<Event>) {
    forall m :: 0 <= m < |events| ==> events[m].Requeue? || events[m].QueueTarget?
  }

  /** A recall, if any, takes place when nobody is idle, of a working drone. */
  ghost predicate RecallFits(s: Swarm, recalled: Option<nat>) {
    recalled.Some? ==> IdleFrom(s.drones, 0) == [] && recalled.value < |s.drones| && Active(s.drones[recalled.value])
  }

  /** A pass holds a round exactly when somebody is still idle, and carries it out to the end unless a vote fails. */
  ghost predicate Passed(start: Swarm, p: Pass, views: DroneId -> MapView, common: MapView, blocked: set<Coord>,
                         nowMs: int, ok: bool)
  {
    && Runs(start, p.queued, p.ready) && Queuing(p.queued) && RecallFits(p.ready, p.recalled)
    && Runs(p.ready, PriorityEvents(p.ready, p.recalled), p.served)
    && (p.round.None? <==> IdleFrom(p.served.drones, 0) == [])
    && (p.round.None? ==> ok && p.reached == p.served)
    && (p.round.Some? ==>
          (&& p.round.value.AssignRound? && Possible(p.served, p.round.value)
           && p.round.value == AssignRound(views, common, blocked, nowMs, p.round.value.assignments)
           && p.reached == Next(p.served, p.round.value) && (ok ==> Finished(p.served, p.round.value))))
  }

  lemma PassRuns(start: Swarm, p: Pass, views: DroneId -> MapView, common: MapView, blocked: set<Coord>, nowMs: int,
                 ok: bool)
    requires Passed(start, p, views, common, blocked, nowMs, ok)
    ensures Runs(start, PassEvents(p), p.reached)
  {
    hide Runs, Possible, Next, IdleFrom, Finished, PriorityEvents;
    RunsThen(start, p.queued, p.ready, PriorityEvents(p.ready, p.recalled), p.served);
    var before := p.queued + PriorityEvents(p.ready, p.recalled);
    if p.round.Some? {
      RunsOne(p.served, p.round.value);
      RunsThen(start, before, p.served, [p.round.value], p.reached);
    } else {
      assert PassEvents(p) == before;
    }
  }

  /** A tick: who leaves the mesh or returns, what the failure detector then sees, the steps before the pass,
      the swarm after everybody has moved, what everybody does after the heartbeats, and the pass. */
  datatype Course = Course(outages: seq<WatchEvent>, beaten: Watch, before: seq<Event>, acted: Swarm,
                           acts: seq<WatchEvent>, pass: Pass)

  /** No pass takes place. */
  ghost function EmptyPass(s: Swarm): Pass {
    Pass([], s, None, s, None, s)
  }

  ghost predicate NoHandouts(events: seq<Event>) {
    forall m :: 0 <= m < |events| ==> !events[m].Priority?
  }

  lemma QuietTogether(a: seq<Event>, b: seq<Event>)
    requires NoHandouts(a) && NoHandouts(b)
    ensures NoHandouts(a + b)
  {}

  ghost predicate Outages(events: seq<Event>) {
    forall m :: 0 <= m < |events| ==> events[m].Fail? || events[m].Recover?
  }

  ghost predicate OnlyActs(acts: seq<WatchEvent>) {
    forall m :: 0 <= m < |acts| ==> acts[m].Act?
  }

  ghost predicate Planned(outages: seq<WatchEvent>, n: nat) {
    forall m :: 0 <= m < |outages| ==>
      (outages[m].Lose? && outages[m].i < n) || (outages[m].Return? && outages[m].i < n)
  }

  // ----- what a pass keeps -----

  /** The cells a pass hands out: the front of the release queue, then the front of the target queue. */
  ghost function HandedCells(idle: nat, releases: seq<Coord>, targets: seq<Coord>): seq<Coord> {
    var first := if idle < |releases| then idle else |releases|;
    var second := if idle - first < |targets| then idle - first else |targets|;
    releases[..first] + targets[..second]
  }

  ghost function Recalled(ds: seq<Drone>, recalled: Option<nat>): seq<Drone> {
    if recalled.Some? && recalled.value < |ds| then ds[recalled.value := Cleared(ds[recalled.value])] else ds
  }

  /** The cells about to be handed out are pairwise different, and nobody holds any of them. */
  ghost predicate HandoutsFree(s: Swarm, recalled: Option<nat>) {
    CellsFree(HandedCells(|IdleAfterRecall(recalled, IdleFrom(s.drones, 0))|, s.releases, s.targets),
              ClaimedZones(Recalled(s.drones, recalled)))
  }

  lemma {:induction false} ServedCells(idle: seq<nat>, queue: seq<Coord>, reason: Reason)
    ensures var n := if |idle| < |queue| then |idle| else |queue|;
      && AllPriority(Served(idle, queue, reason)) && CellsOf(Served(idle, queue, reason)) == queue[..n]
      && |Unserved(idle, queue).0| == |idle| - n
  {
    if idle != [] && queue != [] {
      ServedCells(idle[1..], queue[1..], reason);
      var rest := Served(idle[1..], queue[1..], reason);
      var all := Served(idle, queue, reason);
      assert all == [Priority(idle[0], queue[0], reason)] + rest;
      assert forall m :: 0 < m < |all| ==> all[m] == rest[m - 1];
      forall m | 0 <= m < |all| ensures all[m].Priority? && CellsOf(all)[m] == queue[m] {
        assert m > 0 ==> CellsOf(rest)[m - 1] == queue[1..][m - 1];
      }
    }
  }

  lemma HandedAre(s: Swarm, recalled: Option<nat>)
    ensures var idle := IdleAfterRecall(recalled, IdleFrom(s.drones, 0));
      var events := Served(idle, s.releases, PriorityReclaim)
                    + Served(Unserved(idle, s.releases).0, s.targets, PriorityTarget);
      && AllPriority(events) && PriorityEvents(s, recalled) == Recalling(recalled) + events
      && CellsOf(events) == HandedCells(|idle|, s.releases, s.targets)
  {
    hide Served, Unserved, IdleFrom;
    var idle := IdleAfterRecall(recalled, IdleFrom(s.drones, 0));
    ServedCells(idle, s.releases, PriorityReclaim);
    ServedCells(Unserved(idle, s.releases).0, s.targets, PriorityTarget);
    var first := Served(idle, s.releases, PriorityReclaim);
    var second := Served(Unserved(idle, s.releases).0, s.targets, PriorityTarget);
    assert PriorityEvents(s, recalled) == Recalling(recalled) + (first + second);
    assert CellsOf(first + second) == CellsOf(first) + CellsOf(second);
  }

  /** The priority steps of a pass keep the swarm safe exactly when the cells they hand out are pairwise
      different and nobody holds any of them, which the queues and the drones show beforehand. */
  lemma ServingSafeExactly(s: Swarm, recalled: Option<nat>, t: Swarm)
    requires SwarmInv(s) && RecallFits(s, recalled) && Runs(s, PriorityEvents(s, recalled), t)
    ensures Safe(t.drones) <==> HandoutsFree(s, recalled)
    ensures DistinctIds(t.drones) && Coherent(t.drones) && (Safe(t.drones) ==> SwarmInv(t))
  {
    hide Served, Unserved, IdleFrom, CellsFree, ClaimedZones, SwarmInv, Safe, HandedCells, PriorityEvents, AllCareful;
    HandedAre(s, recalled);
    var idle := IdleAfterRecall(recalled, IdleFrom(s.drones, 0));
    var events := Served(idle, s.releases, PriorityReclaim)
        + Served(Unserved(idle, s.releases).0, s.targets, PriorityTarget);
    if recalled.Some? {
      var all := [Clear(recalled.value)] + events;
      assert all[0] == Clear(recalled.value) && all[1..] == events;
      ClearPossible(s, recalled.value);
      StepKeepsInv(s, Clear(recalled.value));
      hide Possible, Next;
      PrioritiesSafeExactly(Next(s, Clear(recalled.value)), events, t);
    } else {
      assert [] + events == events;
      PrioritiesSafeExactly(s, events, t);
    }
  }

  lemma InvIsSafe(s: Swarm)
    ensures SwarmInv(s) ==> Safe(s.drones)
  {}

  /** A whole pass, round included, keeps the swarm safe exactly under the same condition. */
  lemma PassSafeExactly(start: Swarm, p: Pass, views: DroneId -> MapView, common: MapView, blocked: set<Coord>,
                        nowMs: int, ok: bool)
    requires SwarmInv(start) && Passed(start, p, views, common, blocked, nowMs, ok)
    ensures SwarmInv(p.ready) && (Safe(p.reached.drones) <==> HandoutsFree(p.ready, p.recalled))
    ensures Safe(p.reached.drones) ==> SwarmInv(p.reached)
  {
    hide Runs, Possible, Next, IdleFrom, Finished, PriorityEvents, SwarmInv, Safe, HandoutsFree, RecallFits;
    NoHandoutsKeepInv(start, p.queued, p.ready);
    ServingSafeExactly(p.ready, p.recalled, p.served);
    if p.round.Some? {
      if Safe(p.served.drones) {
        StepKeepsInv(p.served, p.round.value);
        InvIsSafe(p.reached);
      } else {
        UnsafeStays(p.served, p.round.value);
      }
    }
  }

  // ----- what the failure detector sees of it -----

  ghost predicate Quiet(e: Event) {
    !e.Fail? && !e.Recover? && !e.GoStale?
  }

  lemma QuietStep(s: Swarm, e: Event)
    requires Possible(s, e) && Quiet(e)
    ensures SameMesh(s.drones, Next(s, e).drones)
  {
    hide RoundClaims, ClaimedZones, ApplyAll, HandedOutSomewhere, Claims;
    if e.AssignRound? {
      var ds := Announced(s.drones, RoundClaims(s, e.views, e.blocked, e.nowMs));
      forall i | 0 <= i < |ds|
        ensures ApplyAll(ds, e.assignments)[i].alive == ds[i].alive
        ensures ApplyAll(ds, e.assignments)[i].reachable == ds[i].reachable
      {
        AfterRound(ds, e.assignments, i);
      }
    }
  }

  lemma SameMeshTrans(a: seq<Drone>, b: seq<Drone>, c: seq<Drone>)
    requires SameMesh(a, b) && SameMesh(b, c)
    ensures SameMesh(a, c)
  {}

  lemma {:induction false} QuietRun(s: Swarm, events: seq<Event>, t: Swarm)
    requires Runs(s, events, t) && forall m :: 0 <= m < |events| ==> Quiet(events[m])
    ensures SameMesh(s.drones, t.drones)
    decreases |events|
  {
    hide Possible, Next;
    if events != [] {
      hide SameMesh;
      QuietStep(s, events[0]);
      QuietRun(Next(s, events[0]), events[1..], t);
      SameMeshTrans(s.drones, Next(s, events[0]).drones, t.drones);
    }
  }

  /** An assignment pass takes nobody off the mesh and brings nobody back. */
  lemma PassKeepsMesh(start: Swarm, p: Pass, views: DroneId -> MapView, common: MapView, blocked: set<Coord>,
                      nowMs: int, ok: bool)
    requires Passed(start, p, views, common, blocked, nowMs, ok)
    ensures SameMesh(start.drones, p.reached.drones)
  {
    hide Runs, Possible, Next, IdleFrom, Finished, SameMesh, Served, Unserved, PriorityEvents;
    PassRuns(start, p, views, common, blocked, nowMs, ok);
    HandedAre(p.ready, p.recalled);
    QuietRun(start, PassEvents(p), p.reached);
  }

  lemma MovesKeepMesh(before: seq<Drone>, after: seq<Drone>, results: DroneId -> SearchResult)
    requires |before| == |after| && forall i :: 0 <= i < |before| ==>
      after[i] == Moved(before[i], results(before[i].id))
    ensures SameMesh(before, after)
  {}

  lemma MovedStaysActive(d: Drone, result: SearchResult)
    ensures Active(Moved(d, result)) <==> Active(d)
  {}

  lemma BeatBetween(w: Watch, outages: seq<WatchEvent>, beaten: Watch, nowMs: int, acts: seq<WatchEvent>, t: Watch,
                    timeoutMs: int)
    requires Watched(w, outages, beaten, timeoutMs) && beaten.beatMs <= nowMs
    requires Watched(HeartbeatStep(beaten, nowMs, timeoutMs), acts, t, timeoutMs)
    ensures Watched(w, outages + [Beat(nowMs)] + acts, t, timeoutMs)
  {
    hide Watched, HeartbeatStep;
    WatchedOne(beaten, Beat(nowMs), timeoutMs);
    WatchedThen(w, outages, beaten, [Beat(nowMs)], HeartbeatStep(beaten, nowMs, timeoutMs), timeoutMs);
    WatchedThen(w, outages + [Beat(nowMs)], HeartbeatStep(beaten, nowMs, timeoutMs), acts, t, timeoutMs);
  }

  lemma SeenInTick(w: Watch, outages: seq<WatchEvent>, beaten: Watch, nowMs: int, acts: seq<WatchEvent>, moved: Watch,
                   reached: seq<Drone>, timeoutMs: int)
    requires Watched(w, outages, beaten, timeoutMs) && beaten.beatMs <= nowMs
    requires Watched(HeartbeatStep(beaten, nowMs, timeoutMs), acts, moved, timeoutMs) && OnlyActs(acts)
    requires SameMesh(moved.drones, reached)
    ensures OnlyActs(acts + Acts(reached, |reached|))
    ensures Watched(w, outages + [Beat(nowMs)] + (acts + Acts(reached, |reached|)), moved.(drones := reached),
                    timeoutMs)
    ensures forall i :: 0 <= i < |moved.drones| ==> (Active(moved.drones[i]) <==> Active(reached[i]))
  {
    hide Watched, HeartbeatStep, Acts;
    AllAct(moved, reached, timeoutMs);
    var more, end := Acts(reached, |reached|), moved.(drones := reached);
    WatchedThen(HeartbeatStep(beaten, nowMs, timeoutMs), acts, moved, more, end, timeoutMs);
    BeatBetween(w, outages, beaten, nowMs, acts + more, end, timeoutMs);
  }

  lemma InvKept(start: Swarm, events: seq<Event>, t: Swarm)
    requires Runs(start, events, t) && NoHandouts(events)
    ensures SwarmInv(start) ==> SwarmInv(t) && Safe(t.drones)
  {
    hide Runs, SwarmInv, Safe;
    if SwarmInv(start) {
      NoHandoutsKeepInv(start, events, t);
      InvIsSafe(t);
    }
  }

  lemma PassOutcome(start: Swarm, p: Pass, views: DroneId -> MapView, common: MapView, blocked: set<Coord>, nowMs: int,
                    ok: bool)
    requires Passed(start, p, views, common, blocked, nowMs, ok)
    ensures SameMesh(start.drones, p.reached.drones)
    ensures SwarmInv(start) ==>
      && SwarmInv(p.ready) && (Safe(p.reached.drones) <==> HandoutsFree(p.ready, p.recalled))
      && (Safe(p.reached.drones) ==> SwarmInv(p.reached))
  {
    hide *;
    PassKeepsMesh(start, p, views, common, blocked, nowMs, ok);
    if SwarmInv(start) {
      PassSafeExactly(start, p, views, common, blocked, nowMs, ok);
    }
  }

  /** Failures and returns in the swarm are losses and returns to the detector. */
  lemma {:induction false} MirrorOutages(s: Swarm, events: seq<Event>, t: Swarm, w: Watch, timeoutMs: int)
      returns (outages: seq<WatchEvent>)
    requires Runs(s, events, t) && Outages(events) && w.drones == s.drones
    ensures Watched(w, outages, w.(drones := t.drones), timeoutMs) && Planned(outages, |s.drones|)
    ensures |t.drones| == |s.drones|
    decreases |events|
  {
    if events == [] {
      outages := [];
    } else {
      var e := events[0];
      var next := Next(s, e);
      var seen := if e.Fail? then Lose(e.i) else Return(e.i, s.drones[e.i].position);
      assert Then(w, seen, timeoutMs) == w.(drones := next.drones);
      var rest := MirrorOutages(next, events[1..], t, w.(drones := next.drones), timeoutMs);
      outages := [seen] + rest;
      assert outages[1..] == rest;
    }
  }

  class EntropyHuntSimulation {
    const size: nat
    const target: Coord
    const failDrone: Option<DroneId>
    const failAt: Option<int>
    const reclaimForceAtS: int
    const targetUnlockAtS: int
    const targetForceAtS: int
    const drones: seq<DroneState>
    const registries: seq<HeartbeatRegistry>
    const staleAfterMs: nat
    const resolver: DeterministicResolver
    var nowMs: int
    ghost var beatMs: int
    var contentionComplete: bool
    var releasedCell: Option<Coord>
    var releaseTimeS: Option<int>
    var reclaimedTimeS: Option<int>
    var targetPriorityArmed: bool
    var releaseQueue: seq<Coord>
    var targetQueue: seq<Coord>
    var survivorFound: bool
    var completedCells: set<Coord>
    var recovered: set<DroneId>
    var failureTriggered: bool

    ghost predicate Valid()
      reads resolver
    {
      && (forall i, j :: 0 <= i < j < |drones| ==> drones[i] != drones[j] && drones[i].id != drones[j].id)
      && |registries| == |drones|
      && (forall i, j :: 0 <= i < j < |registries| ==> registries[i] != registries[j])
      && resolver.Valid()
    }

    /** All drones have heard the same beats, and what they remember as stale was overdue already. */
    ghost predicate Listening()
      reads this`beatMs, registries
    {
      forall i :: 0 <= i < |registries| ==>
        && registries[i].lastSeen == registries[0].lastSeen
        && registries[i].stale <= Overdue(registries[0].lastSeen, beatMs, staleAfterMs)
    }

    /** What the failure detector watches. */
    ghost function Watching(): Watch
      reads this`beatMs, drones, registries
    {
      Watch(Views(), if |registries| > 0 then registries[0].lastSeen else map[], beatMs)
    }

    /** All drones start idle, at the given positions. */
    constructor (ids: seq<DroneId>, positions: DroneId -> Coord, size: nat, target: Coord, failDrone: Option<DroneId>,
                 failAt: Option<int>, reclaimForceAtS: int, targetUnlockAtS: int, targetForceAtS: int,
                 staleAfterMs: nat)
      requires Distinct(ids)
      ensures Valid() && fresh(resolver) && fresh(drones)
      ensures this.size == size && this.target == target && Initial(Model())
      ensures |drones| == |ids| && forall i :: 0 <= i < |ids| ==>
        drones[i].id == ids[i] && drones[i].position == positions(ids[i])
      ensures nowMs == beatMs == 0 && releaseQueue == targetQueue == [] && releasedCell.None?
      ensures fresh(registries) && Listening() && this.staleAfterMs == staleAfterMs
      ensures Watching().lastSeen == map[]
      ensures this.failDrone == failDrone && this.failAt == failAt && this.reclaimForceAtS == reclaimForceAtS
      ensures this.targetUnlockAtS == targetUnlockAtS && this.targetForceAtS == targetForceAtS
      ensures !survivorFound && !failureTriggered && !targetPriorityArmed && completedCells == {} && recovered == {}
      ensures releaseTimeS.None? && reclaimedTimeS.None?
    {
      this.size := size;
      this.target := target;
      this.failDrone := failDrone;
      this.failAt := failAt;
      this.reclaimForceAtS := reclaimForceAtS;
      this.targetUnlockAtS := targetUnlockAtS;
      this.targetForceAtS := targetForceAtS;
      var ds := BuildDrones(ids, positions);
      drones := ds;
      var rs := BuildRegistries(|ids|);
      registries := rs;
      this.staleAfterMs := staleAfterMs;
      beatMs := 0;
      var r := new DeterministicResolver(ids, true);
      resolver := r;
      nowMs := 0;
      contentionComplete := false;
      releasedCell := None;
      releaseTimeS := None;
      reclaimedTimeS := None;
      targetPriorityArmed := false;
      releaseQueue := [];
      targetQueue := [];
      survivorFound := false;
      completedCells := {};
      recovered := {};
      failureTriggered := false;
    }

    function Views(): (ds: seq<Drone>)
      reads drones
      ensures |ds| == |drones|
      ensures forall i :: 0 <= i < |ds| ==> ds[i] == drones[i].Snapshot()
    {
      seq(|drones|, i requires 0 <= i < |drones| reads drones => drones[i].Snapshot())
    }

    ghost function Model(): Swarm
      reads this`contentionComplete, this`releaseQueue, this`targetQueue, this`releasedCell, drones
    {
      Swarm(size, Views(), contentionComplete, releaseQueue, targetQueue, releasedCell)
    }

    function Seconds(): int
      reads this`nowMs
    {
      nowMs / 1000
    }

    /** Finds a drone by id. */
    method IndexOf(id: DroneId) returns (k: nat)
      requires exists i :: 0 <= i < |drones| && drones[i].id == id
      ensures k < |drones| && drones[k].id == id
    {
      k := 0;
      while drones[k].id != id
        invariant k < |drones| && exists i :: k <= i < |drones| && drones[i].id == id
        decreases |drones| - k
      {
        k := k + 1;
      }
    }

    /** Carries out one assignment, and notes when a released cell is taken again. */
    method ApplyAssignment(a: ZoneAssignment)
      requires Valid() && exists i :: 0 <= i < |drones| && drones[i].id == a.droneId
      modifies drones, this`reclaimedTimeS
      ensures Valid() && Views() == ApplyTo(old(Views()), a)
      ensures reclaimedTimeS == if a.reason != Idle && Some(a.cell) == releasedCell && old(reclaimedTimeS).None?
                                then Some(Seconds()) else old(reclaimedTimeS)
    {
      var k := IndexOf(a.droneId);
      var drone := drones[k];
      if a.reason == Idle {
        drone.status := IdleStatus;
        return;
      }
      drone.SetAssignment(a.cell, a.subzone);
      drone.status := if a.reason in {Winner, Split, PriorityReclaim, PriorityTarget} then ClaimWon else ClaimLost;
      if Some(a.cell) == releasedCell && reclaimedTimeS.None? {
        reclaimedTimeS := Some(Seconds());
      }
    }

    method ApplyAssignments(assignments: seq<ZoneAssignment>)
      requires Valid()
      requires forall k :: 0 <= k < |assignments| ==>
        exists i :: 0 <= i < |drones| && drones[i].id == assignments[k].droneId
      modifies drones, this`reclaimedTimeS
      ensures Valid() && Views() == ApplyAll(old(Views()), assignments)
    {
      hide ApplyTo;
      for k := 0 to |assignments|
        invariant Valid() && Views() == ApplyAll(old(Views()), assignments[..k])
      {
        ApplyAssignment(assignments[k]);
        assert assignments[..k + 1][..k] == assignments[..k];
      }
      assert assignments[..|assignments|] == assignments;
    }

    /** Publishes a claim for a drone. */
    method CreateClaim(k: nat, cell: Coord) returns (claim: ClaimRequest)
      requires Valid() && k < |drones|
      modifies drones[k]
      ensures Valid() && claim == ClaimFor(old(drones[k].Snapshot()), cell, nowMs)
      ensures drones[k].Snapshot() == old(drones[k].Snapshot()).(status := Computing)
      ensures claim == ClaimRequest(drones[k].id, drones[k].id, cell, drones[k].position, nowMs)
    {
      claim := ClaimRequest(drones[k].id, drones[k].id, cell, drones[k].position, nowMs);
      drones[k].status := Computing;
    }

    function Queue(reason: Reason): seq<Coord>
      reads this`releaseQueue, this`targetQueue
    {
      if reason == PriorityReclaim then releaseQueue else targetQueue
    }

    method Pop(reason: Reason) returns (cell: Coord)
      requires Queue(reason) != []
      modifies this`releaseQueue, this`targetQueue
      ensures cell == old(Queue(reason))[0]
      ensures releaseQueue == if reason == PriorityReclaim then old(releaseQueue)[1..] else old(releaseQueue)
      ensures targetQueue == if reason == PriorityReclaim then old(targetQueue) else old(targetQueue)[1..]
    {
      cell := Queue(reason)[0];
      if reason == PriorityReclaim {
        releaseQueue := releaseQueue[1..];
      } else {
        targetQueue := targetQueue[1..];
      }
    }

    /** Gives the front cell of a priority queue to an idle drone, without asking who holds it. */
    method HandOut(k: nat, reason: Reason) returns (ghost e: Event)
      requires Valid() && k < |drones| && Active(Views()[k]) && Views()[k].target.None?
      requires reason in {PriorityReclaim, PriorityTarget} && Queue(reason) != []
      modifies drones, this`reclaimedTimeS, this`releaseQueue, this`targetQueue
      ensures Valid() && e == Priority(k, old(Queue(reason))[0], reason)
      ensures Possible(old(Model()), e) && Model() == Next(old(Model()), e)
    {
      hide Possible, Next, Views, ApplyTo, Valid;
      ghost var before := Model();
      var cell := Pop(reason);
      var _ := CreateClaim(k, cell);
      ghost var middle := Views();
      var a := ZoneAssignment(drones[k].id, cell, reason, Whole);
      assert middle == before.drones[k := before.drones[k].(status := Computing)];
      ApplyAssignment(a);
      e := Priority(k, cell, reason);
      PriorityPossible(before, middle, k, a);
    }

    /** Gives the front cell to the first idle drone, one more step of a run. */
    method ServeFirst(idle: seq<nat>, reason: Reason, ghost start: Swarm, ghost soFar: seq<Event>)
      requires Valid() && idle == IdleFrom(Views(), 0) && idle != []
      requires reason in {PriorityReclaim, PriorityTarget} && Queue(reason) != []
      requires Runs(start, soFar, Model())
      modifies drones, this`reclaimedTimeS, this`releaseQueue, this`targetQueue
      ensures Valid() && idle[1..] == IdleFrom(Views(), 0)
      ensures releaseQueue == if reason == PriorityReclaim then old(releaseQueue)[1..] else old(releaseQueue)
      ensures targetQueue == if reason == PriorityReclaim then old(targetQueue) else old(targetQueue)[1..]
      ensures Runs(start, soFar + [Priority(idle[0], old(Queue(reason))[0], reason)], Model())
    {
      hide Runs, Possible, IdleFrom;
      ghost var before := Model();
      ghost var e := HandOut(idle[0], reason);
      PriorityPops(before, idle[0], e.cell, reason);
      hide Next;
      RunsOne(before, e);
      RunsThen(start, soFar, before, [e], Model());
    }

    /** Serves a priority queue from the front while there are idle drones. */
    method ServeQueue(idle0: seq<nat>, reason: Reason) returns (idle: seq<nat>, ghost events: seq<Event>)
      requires Valid() && idle0 == IdleFrom(Views(), 0) && reason in {PriorityReclaim, PriorityTarget}
      modifies drones, this`reclaimedTimeS, this`releaseQueue, this`targetQueue
      ensures Valid() && idle == IdleFrom(Views(), 0)
      ensures Runs(old(Model()), events, Model())
      ensures events == Served(idle0, old(Queue(reason)), reason)
      ensures (idle, Queue(reason)) == Unserved(idle0, old(Queue(reason)))
      ensures if reason == PriorityReclaim then targetQueue == old(targetQueue) else releaseQueue == old(releaseQueue)
    {
      hide Runs, Possible, Next, IdleFrom, Valid, Views, Served, Unserved;
      idle, events := idle0, [];
      RunsNone(Model());
      ghost var queue0 := Queue(reason);
      assert [] + Served(idle0, queue0, reason) == Served(idle0, queue0, reason);
      while Queue(reason) != [] && idle != []
        invariant Valid() && idle == IdleFrom(Views(), 0)
        invariant Runs(old(Model()), events, Model())
        invariant events + Served(idle, Queue(reason), reason) == Served(idle0, queue0, reason)
        invariant Unserved(idle, Queue(reason)) == Unserved(idle0, queue0)
        invariant if reason == PriorityReclaim then targetQueue == old(targetQueue)
            else releaseQueue == old(releaseQueue)
        decreases |Queue(reason)|
      {
        ghost var queue := Queue(reason);
        ServeFirst(idle, reason, old(Model()), events);
        ServedNext(events, idle, queue, reason);
        events := events + [Priority(idle[0], queue[0], reason)];
        idle := idle[1..];
      }
      NothingServed(events, idle, Queue(reason), reason);
    }

    /** The nearest working drone other than the one planned to fail, ids breaking ties. */
    method NearestDrone(cell: Coord) returns (best: Option<nat>)
      requires Valid()
      ensures best.Some? <==> AnyCandidate()
      ensures best.Some? ==> IsNearest(best.value, cell)
      ensures best.None? <==> forall i :: 0 <= i < |drones| ==>
        !drones[i].alive || !drones[i].reachable || Some(drones[i].id) == failDrone
      ensures best.Some? ==>
        && best.value < |drones| && drones[best.value].alive && drones[best.value].reachable
        && Some(drones[best.value].id) != failDrone
        && forall i :: 0 <= i < |drones| && drones[i].alive && drones[i].reachable
                       && Some(drones[i].id) != failDrone ==>
             Manhattan(drones[best.value].position, cell) < Manhattan(drones[i].position, cell)
             || (Manhattan(drones[best.value].position, cell) == Manhattan(drones[i].position, cell)
                 && drones[best.value].id <= drones[i].id)
    {
      best := None;
      for k := 0 to |drones|
        invariant best.None? <==> forall i :: 0 <= i < k ==> !Candidate(i)
        invariant best.Some? ==> best.value < k && Candidate(best.value)
        invariant best.Some? ==> forall i :: 0 <= i < k && Candidate(i) && i != best.value ==>
          Manhattan(drones[best.value].position, cell) < Manhattan(drones[i].position, cell)
          || (Manhattan(drones[best.value].position, cell) == Manhattan(drones[i].position, cell)
              && drones[best.value].id < drones[i].id)
      {
        if Candidate(k) {
          var far := Manhattan(drones[k].position, cell);
          if best.None? || far < Manhattan(drones[best.value].position, cell)
             || (far == Manhattan(drones[best.value].position, cell) && drones[k].id < drones[best.value].id) {
            best := Some(k);
          }
        }
      }
      assert forall i :: 0 <= i < |drones| ==>
        (Candidate(i) <==> drones[i].alive && drones[i].reachable && Some(drones[i].id) != failDrone);
    }

    ghost predicate IsNearest(k: nat, cell: Coord)
      reads drones
    {
      && k < |drones| && Candidate(k)
      && forall i :: 0 <= i < |drones| && Candidate(i) && i != k ==>
           (Manhattan(drones[k].position, cell) < Manhattan(drones[i].position, cell)
            || (Manhattan(drones[k].position, cell) == Manhattan(drones[i].position, cell)
                && drones[k].id < drones[i].id))
    }

    ghost predicate AnyCandidate()
      reads drones
    {
      exists i :: 0 <= i < |drones| && Candidate(i)
    }

    predicate Candidate(i: nat)
      requires i < |drones|
      reads drones
    {
      drones[i].alive && drones[i].reachable && Some(drones[i].id) != failDrone
    }

    /** Takes a working drone off its cell so that it can serve the released one. */
    method Recall(k: nat) returns (ghost e: Event)
      requires Valid() && k < |drones| && Active(Views()[k]) && IdleFrom(Views(), 0) == []
      modifies drones[k]
      ensures Valid() && e == Clear(k) && Possible(old(Model()), e) && Model() == Next(old(Model()), e)
      ensures IdleFrom(Views(), 0) == [k]
    {
      ghost var before := Views();
      drones[k].ClearAssignment();
      e := Clear(k);
      assert Views() == before[k := Cleared(before[k])];
      OnlyIdle(before, Views(), 0, k);
    }

    /** A released cell has waited a second. */
    predicate RecallDue()
      reads this`releaseQueue, this`releaseTimeS, this`nowMs
      ensures RecallDue() ==> releaseQueue != []
    {
      releaseQueue != [] && releaseTimeS.Some? && Seconds() - releaseTimeS.value >= 1
    }

    /** When a released cell has waited a second and nobody is idle, the nearest drone is recalled for it. */
    method RecallForRelease(idle0: seq<nat>)
        returns (idle: seq<nat>, ghost events: seq<Event>, ghost recalled: Option<nat>)
      requires Valid() && idle0 == IdleFrom(Views(), 0)
      modifies drones
      ensures Valid() && idle == IdleFrom(Views(), 0)
      ensures Runs(old(Model()), events, Model())
      ensures recalled.Some? <==> idle0 == [] && old(RecallDue()) && old(AnyCandidate())
      ensures old(RecallDue()) <==>
        releaseQueue != [] && releaseTimeS.Some? && nowMs / 1000 - releaseTimeS.value >= 1
      ensures recalled.Some? ==> old(IsNearest(recalled.value, releaseQueue[0]))
      ensures idle == IdleAfterRecall(recalled, idle0) && events == Recalling(recalled)
    {
      hide Runs, Possible, Next, IdleFrom, Active, Views;
      idle, events, recalled := idle0, [], None;
      RunsNone(Model());
      if idle == [] && RecallDue() {
        var candidate := NearestDrone(releaseQueue[0]);
        if candidate.Some? {
          ghost var before := Model();
          CandidateActive(candidate.value);
          ghost var e := Recall(candidate.value);
          idle, recalled := [candidate.value], candidate;
          RunsOne(before, e);
          events := [e];
        }
      }
    }

    method ProcessPriorityReleaseQueue(idle0: seq<nat>)
        returns (idle: seq<nat>, ghost events: seq<Event>, ghost recalled: Option<nat>)
      requires Valid() && idle0 == IdleFrom(Views(), 0)
      modifies drones, this`reclaimedTimeS, this`releaseQueue, this`targetQueue
      ensures Valid() && idle == IdleFrom(Views(), 0) && targetQueue == old(targetQueue)
      ensures Runs(old(Model()), events, Model())
      ensures recalled.Some? <==> idle0 == [] && old(RecallDue()) && old(AnyCandidate())
      ensures recalled.Some? ==> old(IsNearest(recalled.value, releaseQueue[0]))
      ensures (idle, releaseQueue) == Unserved(IdleAfterRecall(recalled, idle0), old(releaseQueue))
      ensures events == Recalling(recalled)
          + Served(IdleAfterRecall(recalled, idle0), old(releaseQueue), PriorityReclaim)
    {
      hide Runs, Possible, Next, IdleFrom, Active, Views, Valid, IsNearest, AnyCandidate, RecallDue, Served, Unserved,
           IdleAfterRecall, Recalling;
      ghost var served;
      idle, events, recalled := RecallForRelease(idle0);
      ghost var middle := Model();
      idle, served := ServeQueue(idle, PriorityReclaim);
      RunsThen(old(Model()), events, middle, served, Model());
      events := events + served;
    }

    lemma CandidateActive(i: nat)
      requires i < |drones| && Candidate(i)
      ensures Active(Views()[i])
    {}

    method ProcessPriorityTargetQueue(idle0: seq<nat>) returns (idle: seq<nat>, ghost events: seq<Event>)
      requires Valid() && idle0 == IdleFrom(Views(), 0)
      modifies drones, this`reclaimedTimeS, this`releaseQueue, this`targetQueue
      ensures Valid() && idle == IdleFrom(Views(), 0) && releaseQueue == old(releaseQueue)
      ensures Runs(old(Model()), events, Model())
      ensures (idle, targetQueue) == Unserved(idle0, old(targetQueue))
      ensures events == Served(idle0, old(targetQueue), PriorityTarget)
    {
      idle, events := ServeQueue(idle0, PriorityTarget);
    }

    /** Lets one idle drone choose a cell and publish its claim. */
    method Choose(d: nat, view: MapView, taken: set<Coord>, shared: bool) returns (claim: Option<ClaimRequest>)
      requires Valid() && d < |drones|
      modifies drones[d]
      ensures Valid()
      ensures var drone := old(drones[d].Snapshot());
        var selection := SelectNextZone(view, taken, drone.position, shared);
        && claim == (if selection.None? then None else Some(ClaimFor(drone, selection.value, nowMs)))
        && drones[d].Snapshot() == drone.(status := if selection.None? then IdleStatus else Claiming)
    {
      hide SelectNextZone;
      var selection := SelectNextZone(view, taken, drones[d].position, shared);
      if selection.None? {
        drones[d].status := IdleStatus;
        return None;
      }
      var made := CreateClaim(d, selection.value);
      drones[d].status := Claiming;
      return Some(made);
    }

    /** Lets every idle drone choose a cell and publish its claim. */
    method GatherRoundClaims(idle: seq<nat>, views: DroneId -> MapView, claimed: set<Coord>, blocked: set<Coord>,
                             shared: bool) returns (claims: seq<ClaimRequest>)
      requires Valid() && idle == IdleFrom(Views(), 0)
      modifies drones
      ensures Valid() && nowMs == old(nowMs)
      ensures claims == GatherClaims(At(old(Views()), idle), views, claimed, blocked, shared, nowMs)
      ensures Views() == Announced(old(Views()), claims)
    {
      hide SelectNextZone, IdleFrom, GatherClaims, Claims, ClaimsUnderway, At, ClaimFor;
      ghost var ds := Views();
      ghost var all := GatherClaims(At(ds, idle), views, claimed, blocked, shared, nowMs);
      claims := [];
      var reserved := claimed;
      GatheringStart(ds, idle, views, claimed, blocked, shared, nowMs);
      for k := 0 to |idle|
        invariant Valid() && nowMs == old(nowMs)
        invariant ClaimsUnderway(ds, Views(), idle, k, claims, views, reserved, blocked, shared, nowMs, all)
      {
        var d: nat := idle[k];
        ghost var es := Views();
        var claim := Choose(d, views(drones[d].id), reserved + blocked, shared);
        GatheringStep(ds, es, idle, k, claims, views, reserved, blocked, shared, nowMs, all, claim);
        assert Views() == es[d := es[d].(status := if claim.None? then IdleStatus else Claiming)];
        assert claim.None? ==> claims + [] == claims;
        if claim.Some? {
          claims := claims + [claim.value];
          if !shared {
            reserved := reserved + {claim.value.cell};
          }
        }
      }
      GatheringEnd(ds, Views(), idle, claims, views, reserved, blocked, shared, nowMs, all);
    }

    ghost predicate Knows(id: DroneId) {
      exists i :: 0 <= i < |drones| && drones[i].id == id
    }

    /** Puts one contest to the vote and carries out what it decides. False: no vote came in time. */
    method ResolveContest(group: seq<ClaimRequest>, common: MapView, claimed: set<Coord>, polls: seq<seq<VoteRecord>>)
        returns (ok: bool, ghost outcome: seq<ZoneAssignment>)
      requires Valid() && group != [] && DistinctDrones(group)
      requires forall k :: 0 <= k < |group| ==> Knows(group[k].droneId)
      modifies drones, resolver, this`reclaimedTimeS, this`contentionComplete
      ensures Valid()
      ensures !ok ==> outcome == [] && Views() == old(Views()) && contentionComplete == old(contentionComplete)
      ensures ResolveConflict(group, common, claimed).Some?
      ensures ok ==> multiset(outcome) == multiset(ResolveConflict(group, common, claimed).value.assignments)
      ensures ok ==> Views() == ApplyAll(old(Views()), outcome)
      ensures ok ==> contentionComplete == (old(contentionComplete) || |group| > 1)
    {
      hide ResolveConflict, ApplyAll, ApplyTo, DistinctDrones, Honest;
      outcome := [];
      ResolveShape(group, common, claimed);
      var r := resolver.ResolveClaims(group, common, claimed, nowMs, Some(group[0].droneId), 0, polls);
      if !r.Decided? {
        return false, outcome;
      }
      var assignments := r.round.decision.assignments;
      outcome := assignments;
      forall k | 0 <= k < |assignments| ensures Knows(assignments[k].droneId) {
        SameElements(assignments, ResolveConflict(group, common, claimed).value.assignments);
        assert assignments[k] in assignments;
        AssigneeClaimed(assignments[k], group, common, claimed);
      }
      if |group| > 1 {
        contentionComplete := true;
      }
      ApplyAssignments(assignments);
      ok := true;
    }

    /** Resolves the contests of a round one after the other, stopping if a vote fails. */
    method ResolveContests(claims: seq<ClaimRequest>, cells: seq<Coord>, grouped: map<Coord, seq<ClaimRequest>>,
                           common: MapView, claimed: set<Coord>, polls: Coord -> seq<seq<VoteRecord>>)
        returns (ok: bool, ghost assignments: seq<ZoneAssignment>)
      requires Valid() && DistinctDrones(claims) && Distinct(cells)
      requires forall k :: 0 <= k < |claims| ==> Knows(claims[k].droneId)
      requires forall c :: c in cells ==> c in grouped && grouped[c] == GroupOf(claims, c) && grouped[c] != []
      modifies drones, resolver, this`reclaimedTimeS, this`contentionComplete
      ensures Valid()
      ensures RoundSoFar(assignments, claims, common, claimed)
      ensures ok && (forall c :: GroupOf(claims, c) != [] ==> c in cells) ==>
        RoundComplete(assignments, claims, common, claimed)
      ensures Views() == ApplyAll(old(Views()), assignments)
      ensures ok ==>
        contentionComplete == (old(contentionComplete) || exists c :: c in cells && |GroupOf(claims, c)| > 1)
    {
      hide ResolveConflict, ApplyAll, SoFar, RoundSoFar, RoundComplete, DistinctDrones, Distinct, GroupOf;
      assignments := [];
      ghost var done: set<Coord> := {};
      SoFarNothing(claims, common, claimed);
      ApplyNothing(Views());
      for k := 0 to |cells|
        invariant Valid()
        invariant SoFar(assignments, claims, done, common, claimed)
        invariant forall c :: c in done <==> c in cells[..k]
        invariant Views() == ApplyAll(old(Views()), assignments)
        invariant contentionComplete == (old(contentionComplete) || exists c :: c in done && |GroupOf(claims, c)| > 1)
      {
        var cell := cells[k];
        assert cell in cells;
        NotEarlier(cells, k);
        GroupDrones(claims, cell);
        GroupKnown(claims, cell);
        ghost var before := Views();
        var settled;
        ghost var outcome;
        settled, outcome := ResolveContest(grouped[cell], common, claimed, polls(cell));
        if !settled {
          SoFarIsRound(assignments, claims, done, common, claimed);
          return false, assignments;
        }
        OneMoreContest(assignments, claims, done, common, claimed, cell, outcome);
        ApplyAllThen(old(Views()), assignments, outcome);
        assignments := assignments + outcome;
        done := done + {cell};
        assert cells[..k + 1] == cells[..k] + [cell];
      }
      assert cells[..|cells|] == cells;
      SoFarIsRound(assignments, claims, done, common, claimed);
      if forall c :: GroupOf(claims, c) != [] ==> c in cells {
        SoFarIsComplete(assignments, claims, done, common, claimed);
      }
      ok := true;
    }

    lemma GroupKnown(claims: seq<ClaimRequest>, c: Coord)
      requires forall k :: 0 <= k < |claims| ==> Knows(claims[k].droneId)
      ensures forall k :: 0 <= k < |GroupOf(claims, c)| ==> Knows(GroupOf(claims, c)[k].droneId)
    {
      hide Knows;
      var group := GroupOf(claims, c);
      forall k | 0 <= k < |group| ensures Knows(group[k].droneId) {
        assert group[k] in group;
      }
    }

    /** The target stays out of the selection until it is unlocked or completed. */
    function BlockedZones(): (blocked: set<Coord>)
      reads this
      ensures |blocked| <= 1
    {
      if targetUnlockAtS > 0 && Seconds() < targetUnlockAtS && target !in completedCells then {target} else {}
    }

    /** Claims, contests and assignments of one round for the drones still idle. */
    method HoldRound(idle: seq<nat>, views: DroneId -> MapView, common: MapView, polls: Coord -> seq<seq<VoteRecord>>)
        returns (ok: bool, ghost e: Event)
      requires Valid() && idle == IdleFrom(Views(), 0)
      requires (forall id :: views(id).size == size) && common.size == size
      modifies drones, resolver, this`reclaimedTimeS, this`contentionComplete
      ensures Valid() && e.AssignRound? && e.views == views && e.common == common && e.blocked == BlockedZones()
      ensures e.blocked == if targetUnlockAtS > 0 && nowMs / 1000 < targetUnlockAtS && target !in completedCells
        then {target} else {}
      ensures e.nowMs == nowMs
      ensures Possible(old(Model()), e)
      ensures Views() == Next(old(Model()), e).drones
      ensures ok ==> Model() == Next(old(Model()), e) && Finished(old(Model()), e)
    {
      hide IdleFrom, GatherClaims, RoundClaims, GroupOf, ClaimedZones, RoundSoFar, RoundComplete, ApplyAll, Announced,
           At;
      hide Possible, Next, Ascending, DistinctDrones, Contest;
      ghost var before := Model();
      var claimed := ClaimedZones(Views());
      var blocked := BlockedZones();
      var claims := GatherRoundClaims(idle, views, claimed, blocked, !contentionComplete);
      ClaimsAreRoundClaims(before, idle, views, blocked, nowMs);
      RoundClaimFacts(before, views, blocked, nowMs);
      ClaimsKnown(before, views, blocked, nowMs, claims);
      var grouped := GroupByCell(claims);
      var cells := SortedCells(grouped.Keys);
      ghost var assignments;
      ok, assignments := ResolveContests(claims, cells, grouped, common, claimed, polls);
      ContendedFlag(claims, cells, grouped);
      e := AssignRound(views, common, blocked, nowMs, assignments);
      RoundEvent(before, views, common, blocked, nowMs, assignments);
    }

    /** Queues a released cell that nobody reclaimed in time, and the search target once it is due. */
    method QueuePriorities() returns (ghost events: seq<Event>)
      requires Valid()
      modifies this`releaseQueue, this`targetQueue, this`targetPriorityArmed
      ensures Runs(old(Model()), events, Model())
      ensures events == (if old(RequeueDue()) then [Requeue] else [])
          + (if old(TargetDue()) then [QueueTarget(target)] else [])
      ensures releaseQueue == if releasedCell.Some? && reclaimedTimeS.None? && nowMs / 1000 >= reclaimForceAtS
                                 && releasedCell.value !in old(releaseQueue)
        then [releasedCell.value] + old(releaseQueue) else old(releaseQueue)
      ensures var due := && !survivorFound && nowMs / 1000 >= targetForceAtS && target !in completedCells
                         && target !in old(targetQueue)
                         && forall i :: 0 <= i < |drones| && drones[i].alive && drones[i].reachable ==>
                              drones[i].target != Some(target);
        && targetQueue == (if due then old(targetQueue) + [target] else old(targetQueue))
        && targetPriorityArmed == (old(targetPriorityArmed) || due)
    {
      hide Runs;
      events := [];
      RunsNone(Model());
      if RequeueDue() {
        ghost var before := Model();
        releaseQueue := [releasedCell.value] + releaseQueue;
        RunsOne(before, Requeue);
        events := [Requeue];
      }
      if TargetDue() {
        ghost var middle := Model();
        targetPriorityArmed := true;
        targetQueue := targetQueue + [target];
        RunsOne(middle, QueueTarget(target));
        RunsThen(old(Model()), events, middle, [QueueTarget(target)], Model());
        events := events + [QueueTarget(target)];
      }
    }

    /** The released cell was not taken again in time, and is not queued. */
    predicate RequeueDue()
      reads this`nowMs, this`releasedCell, this`reclaimedTimeS, this`releaseQueue
    {
      releasedCell.Some? && reclaimedTimeS.None? && Seconds() >= reclaimForceAtS && releasedCell.value !in releaseQueue
    }

    /** The search target is due, and nobody is on it. */
    predicate TargetDue()
      reads this`nowMs, this`survivorFound, this`completedCells, this`targetQueue, drones
    {
      && !survivorFound && Seconds() >= targetForceAtS && target !in completedCells
      && (forall i :: 0 <= i < |drones| && Active(Views()[i]) ==> Views()[i].target != Some(target))
      && target !in targetQueue
    }

    /** The priority queues, served before anything else. */
    method ServePriorities()
        returns (idle: seq<nat>, ghost queued: seq<Event>, ghost ready: Swarm, ghost recalled: Option<nat>)
      requires Valid()
      modifies drones, this`reclaimedTimeS, this`releaseQueue, this`targetQueue, this`targetPriorityArmed
      ensures Valid() && idle == IdleFrom(Views(), 0)
      ensures queued == (if old(RequeueDue()) then [Requeue] else [])
          + (if old(TargetDue()) then [QueueTarget(target)] else [])
      ensures Runs(old(Model()), queued, ready) && RecallFits(ready, recalled)
      ensures Runs(ready, PriorityEvents(ready, recalled), Model())
      ensures idle == [] || (releaseQueue == [] && targetQueue == [])
    {
      hide Runs, Possible, Next, IdleFrom, Views, Valid, Served, Unserved, RecallDue, AnyCandidate, RequeueDue,
           TargetDue;
      ghost var first, second;
      queued := QueuePriorities();
      ready := Model();
      idle := IdleFrom(Views(), 0);
      idle, first, recalled := ProcessPriorityReleaseQueue(idle);
      ghost var middle := Model();
      idle, second := ProcessPriorityTargetQueue(idle);
      RunsThen(ready, first, middle, second, Model());
    }

    /** One assignment pass: queued priorities first, then a round for whoever is still idle. False: a
        contest heard no vote; the drones then are as some run of events leaves them. */
    method AssignIdleDrones(views: DroneId -> MapView, common: MapView, polls: Coord -> seq<seq<VoteRecord>>)
        returns (ok: bool, ghost pass: Pass)
      requires Valid() && (forall id :: views(id).size == size) && common.size == size
      modifies drones, resolver, this`reclaimedTimeS, this`releaseQueue, this`targetQueue, this`targetPriorityArmed,
               this`contentionComplete
      ensures Valid()
      ensures Passed(old(Model()), pass, views, common, BlockedZones(), nowMs, ok)
      ensures pass.queued == (if old(RequeueDue()) then [Requeue] else [])
                             + (if old(TargetDue()) then [QueueTarget(target)] else [])
      ensures pass.reached.drones == Views() && (ok ==> pass.reached == Model())
      ensures pass.round.Some? ==> releaseQueue == [] && targetQueue == []
    {
      hide Runs, Possible, Next, IdleFrom, Views, Valid, Finished, PriorityEvents, RequeueDue, TargetDue;
      var idle;
      ghost var queued, ready, recalled;
      idle, queued, ready, recalled := ServePriorities();
      ghost var served := Model();
      if idle == [] {
        return true, Pass(queued, ready, recalled, served, None, served);
      }
      ghost var e;
      ok, e := HoldRound(idle, views, common, polls);
      pass := Pass(queued, ready, recalled, served, Some(e), Next(served, e));
    }

    // ----- the heartbeat step -----

    /** One registry hears the beats of all working drones. */
    method Deliver(r: nat, ids: seq<DroneId>)
      requires r < |registries|
      modifies registries[r]
      ensures registries[r].lastSeen == Beaten(old(registries[r].lastSeen), Elements(ids), nowMs)
      ensures registries[r].stale == old(registries[r].stale) - Elements(ids)
    {
      var registry := registries[r];
      ghost var seen, stale := registry.lastSeen, registry.stale;
      for k := 0 to |ids|
        invariant registry.lastSeen == Beaten(seen, Elements(ids[..k]), nowMs)
        invariant registry.stale == stale - Elements(ids[..k])
      {
        registry.Register(ids[k], nowMs);
        assert ids[..k + 1] == ids[..k] + [ids[k]];
        assert Elements(ids[..k + 1]) == Elements(ids[..k]) + {ids[k]};
      }
      assert ids[..|ids|] == ids;
    }

    /** Every registry hears the beats of all working drones. */
    method DeliverAll(ids: seq<DroneId>)
      requires Valid()
      modifies registries
      ensures forall r :: 0 <= r < |registries| ==>
        && registries[r].lastSeen == Beaten(old(registries[r].lastSeen), Elements(ids), nowMs)
        && registries[r].stale == old(registries[r].stale) - Elements(ids)
    {
      hide Elements, Beaten;
      for k := 0 to |registries|
        invariant forall r :: 0 <= r < k ==>
          && registries[r].lastSeen == Beaten(old(registries[r].lastSeen), Elements(ids), nowMs)
          && registries[r].stale == old(registries[r].stale) - Elements(ids)
        invariant forall r :: k <= r < |registries| ==>
          registries[r].lastSeen == old(registries[r].lastSeen) && registries[r].stale == old(registries[r].stale)
      {
        Deliver(k, ids);
      }
    }

    /** The working observers compare notes; with equal records each of them finds the same drones late. */
    method CollectVotes(observers: seq<nat>, ghost seen: map<DroneId, int>) returns (votes: map<DroneId, nat>)
      requires Valid() && forall k :: 0 <= k < |observers| ==> observers[k] < |registries|
      requires forall r :: 0 <= r < |registries| ==>
        registries[r].lastSeen == seen && registries[r].stale <= Overdue(seen, nowMs, staleAfterMs)
      modifies registries
      ensures forall r :: 0 <= r < |registries| ==>
        registries[r].lastSeen == seen && registries[r].stale <= Overdue(seen, nowMs, staleAfterMs)
      ensures forall d :: d in votes <==> observers != [] && d in Overdue(seen, nowMs, staleAfterMs)
      ensures forall d :: d in votes ==> votes[d] == |observers|
    {
      hide Overdue;
      votes := map[];
      ghost var overdue := Overdue(seen, nowMs, staleAfterMs);
      OverdueIsSeen(seen);
      for k := 0 to |observers|
        invariant forall r :: 0 <= r < |registries| ==> registries[r].lastSeen == seen && registries[r].stale <= overdue
        invariant forall d :: d in votes <==> k > 0 && d in overdue
        invariant forall d :: d in votes ==> votes[d] == k
      {
        var _, late := registries[observers[k]].DetectStale(nowMs, staleAfterMs);
        assert late == overdue;
        votes := map d | d in late :: if d in votes then votes[d] + 1 else 1;
      }
    }

    lemma OverdueIsSeen(seen: map<DroneId, int>)
      ensures Overdue(seen, nowMs, staleAfterMs) <= seen.Keys
    {}

    /** Declares a drone stale, and queues the cell it held for a new owner. */
    method MarkDroneStale(k: nat) returns (ghost e: Event)
      requires Valid() && k < |drones| && Views()[k].alive
      modifies drones[k], resolver, this`releasedCell, this`releaseTimeS, this`releaseQueue
      ensures Valid() && e == GoStale(k) && Possible(old(Model()), e) && Model() == Next(old(Model()), e)
      ensures var cell := old(Views()[k].claimed);
        && releasedCell == (if cell.Some? then cell else old(releasedCell))
        && releaseTimeS == (if cell.Some? then Some(Seconds()) else old(releaseTimeS))
        && releaseQueue == (if cell.Some? && cell.value !in old(releaseQueue) then old(releaseQueue) + [cell.value]
                            else old(releaseQueue))
      ensures old(Views()[k].claimed).Some? ==> resolver.roundId == old(resolver.roundId) + 1
    {
      hide Possible, Next, Views;
      ghost var before := Model();
      var cell := drones[k].claimed;
      if cell.Some? {
        var _ := resolver.ConfirmRelease(drones[k].id, cell.value, nowMs);
        releasedCell := cell;
        releaseTimeS := Some(Seconds());
        if cell.value !in releaseQueue {
          releaseQueue := releaseQueue + [cell.value];
        }
      }
      drones[k].MarkStale();
      e := GoStale(k);
      assert Views() == before.drones[k := MarkedStale(before.drones[k])];
      StalePossible(before, k);
    }

    /** Declares stale every live drone that a majority of the observers finds late. */
    method MarkLateDrones(votes: map<DroneId, nat>, quorum: nat) returns (ghost events: seq<Event>)
      requires Valid()
      modifies this`releasedCell, this`releaseTimeS, this`releaseQueue, drones, resolver
      ensures Valid() && Runs(old(Model()), events, Model())
      ensures forall i :: 0 <= i < |drones| ==> Views()[i] == Judged(old(Views())[i], votes, quorum)
      ensures NoHandouts(events)
    {
      hide Runs, Possible, Views;
      events := [];
      RunsNone(Model());
      for k := 0 to |drones|
        invariant Valid() && Runs(old(Model()), events, Model()) && NoHandouts(events)
        invariant forall i :: 0 <= i < |drones| ==>
          Views()[i] == if i < k then Judged(old(Views())[i], votes, quorum) else old(Views())[i]
      {
        if drones[k].alive && drones[k].id in votes && votes[drones[k].id] >= quorum {
          ghost var before := Model();
          ghost var e := MarkDroneStale(k);
          RunsOne(before, e);
          RunsThen(old(Model()), events, before, [e], Model());
          events := events + [e];
        }
      }
    }

    /** Everybody working beats, and everybody listens. */
    method BeatAndListen() returns (observers: seq<nat>)
      requires Valid() && Listening() && nowMs >= beatMs
      modifies registries, this`beatMs
      ensures Valid() && observers == OnlineFrom(Views(), 0) && beatMs == nowMs
      ensures var seen := Beaten(old(Watching().lastSeen), Online(Views()), nowMs);
        forall r :: 0 <= r < |registries| ==>
          registries[r].lastSeen == seen && registries[r].stale <= Overdue(seen, nowMs, staleAfterMs)
    {
      hide Overdue, Beaten, OnlineFrom, Elements;
      ghost var w := Watching();
      var ds := Views();
      observers := OnlineFrom(ds, 0);
      var ids := seq(|observers|, k requires 0 <= k < |observers| => drones[observers[k]].id);
      OnlineIds(ds, observers, ids);
      StaleStaysOverdue(w.lastSeen, Elements(ids), beatMs, nowMs, staleAfterMs);
      ghost var heard := Elements(ids);
      DeliverAll(ids);
      beatMs := nowMs;
      ghost var seen := Beaten(w.lastSeen, heard, nowMs);
      forall r | 0 <= r < |registries|
        ensures registries[r].lastSeen == seen && registries[r].stale <= Overdue(seen, nowMs, staleAfterMs)
      {
        assert old(registries[r].lastSeen) == w.lastSeen;
        assert old(registries[r].stale) <= Overdue(w.lastSeen, old(beatMs), staleAfterMs);
      }
    }

    lemma StillListening(seen: map<DroneId, int>)
      requires forall r :: 0 <= r < |registries| ==>
        registries[r].lastSeen == seen && registries[r].stale <= Overdue(seen, beatMs, staleAfterMs)
      ensures Listening()
      ensures |registries| > 0 ==> Watching().lastSeen == seen
    {}

    /** One heartbeat step: everybody working beats, everybody listens, and the late are declared stale. */
    method HeartbeatTick() returns (ghost events: seq<Event>)
      requires Valid() && Listening() && nowMs >= beatMs
      modifies this`beatMs, this`releasedCell, this`releaseTimeS, this`releaseQueue, drones, registries, resolver
      ensures Valid() && Listening() && beatMs == nowMs
      ensures Watching() == HeartbeatStep(old(Watching()), nowMs, staleAfterMs)
      ensures Runs(old(Model()), events, Model()) && NoHandouts(events)
    {
      hide Runs, Overdue, Beaten, OnlineFrom, HeartbeatStep, Views, Listening;
      ghost var w := Watching();
      ghost var seen := Beaten(w.lastSeen, Online(Views()), nowMs);
      var observers := BeatAndListen();
      ObserversOnline(Views(), observers);
      var quorum := if |observers| / 2 + 1 > 1 then |observers| / 2 + 1 else 1;
      var votes := CollectVotes(observers, seen);
      events := MarkLateDrones(votes, quorum);
      StillListening(seen);
      NobodyHeard(w.lastSeen, Online(w.drones), nowMs);
      VotesMakeStep(w, Views(), |observers|, votes, quorum, nowMs, staleAfterMs);
    }

    // ----- the other steps of a tick -----

    /** A failure is planned, and its time has come. */
    predicate FailureDue()
      reads this`nowMs
    {
      failDrone.Some? && failAt.Some? && Seconds() >= failAt.value
    }

    /** The planned failure: the drone stays alive but leaves the mesh. It is tried once. */
    method InjectFailure() returns (ghost events: seq<Event>)
      requires Valid()
      modifies drones, this`failureTriggered
      ensures Valid() && Runs(old(Model()), events, Model())
      ensures events == [] || exists k: nat :: k < |drones| && events == [Fail(k)] && Some(drones[k].id) == failDrone
      ensures Outages(events)
      ensures failureTriggered == (old(failureTriggered) || FailureDue())
      ensures FailureDue() <==> failDrone.Some? && failAt.Some? && nowMs / 1000 >= failAt.value
      ensures events != [] ==> !old(failureTriggered) && FailureDue()
      ensures forall i :: 0 <= i < |drones| && Some(drones[i].id) != failDrone ==> Views()[i] == old(Views()[i])
      ensures !old(failureTriggered) && FailureDue() ==>
        forall i :: 0 <= i < |drones| && drones[i].id == failDrone.value ==> !Active(Views()[i])
    {
      hide Runs, Possible, Views;
      events := [];
      RunsNone(Model());
      if failureTriggered || !FailureDue() {
        return;
      }
      failureTriggered := true;
      for k := 0 to |drones|
        invariant Model() == old(Model()) && events == []
        invariant forall i :: 0 <= i < k && drones[i].id == failDrone.value ==> !Active(Views()[i])
      {
        if drones[k].id == failDrone.value && drones[k].alive && drones[k].reachable {
          ghost var before := Model();
          drones[k].reachable := false;
          assert Views() == before.drones[k := before.drones[k].(reachable := false)];
          FailPossible(before, k);
          RunsOne(before, Fail(k));
          events := [Fail(k)];
          return;
        }
      }
    }

    /** A drone comes back where it was lost. */
    method Return(k: nat) returns (ghost e: Event)
      requires Valid() && k < |drones| && !Active(Views()[k])
      modifies drones[k]
      ensures Valid() && e == Recover(k) && Possible(old(Model()), e) && Model() == Next(old(Model()), e)
      ensures Views() == old(Views())[k := Restored(old(Views())[k], true)]
    {
      hide Possible;
      ghost var before := Model();
      drones[k].Revive(drones[k].position);
      assert Views() == before.drones[k := Revived(before.drones[k], before.drones[k].position)];
      RecoverPossible(before, k);
      e := Recover(k);
    }

    lemma IdsDiffer()
      requires Valid()
      ensures forall i, j :: 0 <= i < j < |drones| ==> drones[i] != drones[j] && drones[i].id != drones[j].id
    {}

    predicate Recovers(k: nat)
      requires k < |drones|
      reads this, drones
    {
      && failDrone.Some? && failAt.Some? && !(drones[k].alive && drones[k].reachable)
      && drones[k].id == failDrone.value && Seconds() >= failAt.value + 20 && drones[k].id !in recovered
    }

    /** It is the drone planned to fail, off the mesh, not returned before, and twenty seconds have passed. */
    lemma RecoversExactly(k: nat)
      requires k < |drones|
      ensures Recovers(k) <==>
        && failDrone == Some(drones[k].id) && failAt.Some? && nowMs / 1000 >= failAt.value + 20
        && drones[k].id !in recovered && (drones[k].alive ==> !drones[k].reachable)
    {}

    /** The failed drone comes back, once, twenty seconds after the planned failure. */
    method CheckRecovery() returns (ghost events: seq<Event>)
      requires Valid()
      modifies drones, this`recovered
      ensures Valid() && Runs(old(Model()), events, Model())
      ensures Outages(events)
      ensures forall i :: 0 <= i < |drones| ==> Views()[i] == Restored(old(Views())[i], old(Recovers(i)))
      ensures forall i :: 0 <= i < |drones| && old(Recovers(i)) ==> drones[i].id in recovered
      ensures forall i :: 0 <= i < |drones| && Some(drones[i].id) != failDrone ==> Views()[i] == old(Views()[i])
      ensures old(recovered) <= recovered
      ensures recovered == old(recovered) || (failDrone.Some? && recovered == old(recovered) + {failDrone.value}
                                              && exists i :: 0 <= i < |drones| && old(Recovers(i)))
    {
      hide Runs, Possible, Next, Views, Valid, Revived;
      IdsDiffer();
      events := [];
      RunsNone(Model());
      for k := 0 to |drones|
        invariant Valid() && Runs(old(Model()), events, Model())
        invariant Outages(events)
        invariant forall i :: 0 <= i < |drones| ==> Views()[i] == Restored(old(Views())[i], i < k && old(Recovers(i)))
        invariant forall i :: 0 <= i < k && old(Recovers(i)) ==> drones[i].id in recovered
        invariant forall i :: k <= i < |drones| ==> Recovers(i) == old(Recovers(i))
        invariant recovered == old(recovered) || (failDrone.Some? && recovered == old(recovered) + {failDrone.value}
                                                  && exists i :: 0 <= i < k && old(Recovers(i)))
      {
        if Recovers(k) {
          ghost var before := Model();
          ghost var e := Return(k);
          recovered := recovered + {drones[k].id};
          RunsOne(before, e);
          RunsThen(old(Model()), events, before, [e], Model());
          events := events + [e];
        }
      }
    }

    /** A working drone moves, or searches where it stands. */
    method Advance(k: nat, certain: bool) returns (arrived: bool)
      requires Valid() && k < |drones| && Active(Views()[k])
      modifies drones[k], this`survivorFound
      ensures Valid()
      ensures drones[k].Snapshot() == Advanced(old(drones[k].Snapshot()))
      ensures arrived <==> old(drones[k].target) == Some(old(drones[k].position))
      ensures survivorFound == (old(survivorFound) ||
                                (old(drones[k].position) == target && old(drones[k].target) == Some(target)
                                 && nowMs / 1000 >= targetUnlockAtS && certain))
    {
      var drone := drones[k];
      arrived := drone.target == Some(drone.position);
      if drone.status in {ClaimWon, ClaimLost} {
        drone.status := if Some(drone.position) != drone.target then Transiting else Searching;
      }
      if drone.target.None? {
        drone.status := IdleStatus;
      } else if drone.position != drone.target.value {
        drone.StepTowardsTarget();
      } else {
        drone.status := Searching;
        drone.searchedCells := drone.searchedCells + 1;
        if drone.target.value == target && Seconds() >= targetUnlockAtS && certain {
          survivorFound := true;
        }
      }
    }

    /** A completed search frees the drone. */
    method Finish(k: nat, certain: bool) returns (ghost e: Event)
      requires Valid() && k < |drones| && Active(Views()[k]) && Views()[k].target.Some?
      modifies drones[k], this`completedCells
      ensures Valid() && e == Clear(k) && Possible(old(Model()), e) && Model() == Next(old(Model()), e)
      ensures Views() == old(Views())[k := Cleared(old(Views())[k])]
      ensures completedCells == old(completedCells) + if certain then {old(Views())[k].target.value} else {}
    {
      hide Possible, Next;
      ghost var before := Model();
      if certain {
        completedCells := completedCells + {drones[k].target.value};
      }
      drones[k].ClearAssignment();
      e := Clear(k);
      assert Views() == before.drones[k := Cleared(before.drones[k])];
      ClearPossible(before, k);
    }

    /** A working drone stands on the search target, which is unlocked, and is certain of it. */
    ghost predicate Finds(d: Drone, certain: bool)
      reads this`nowMs
    {
      Active(d) && d.target == Some(target) && d.position == target && nowMs / 1000 >= targetUnlockAtS && certain
    }

    /** A working drone's move or search, as the next step of a run. */
    method Approach(k: nat, certain: bool) returns (arrived: bool, ghost events: seq<Event>)
      requires Valid() && k < |drones| && Active(Views()[k])
      modifies drones[k], this`survivorFound
      ensures Valid() && Runs(old(Model()), events, Model()) && NoHandouts(events)
      ensures Views() == old(Views())[k := Advanced(old(Views())[k])]
      ensures arrived <==> old(Views())[k].target == Some(old(Views())[k].position)
      ensures survivorFound == (old(survivorFound) || Finds(old(Views())[k], certain))
    {
      hide Runs, Possible;
      ghost var before := Model();
      arrived := Advance(k, certain);
      ghost var d := Advanced(before.drones[k]);
      assert Views() == before.drones[k := d];
      WorkPossible(before, k, d);
      events := [Work(k, d.position, d.status, d.searchedCells)];
      RunsOne(before, events[0]);
    }

    /** One drone's turn; `result` is what the certainty maps say of its search. */
    method MoveOne(k: nat, result: SearchResult) returns (ghost events: seq<Event>)
      requires Valid() && k < |drones|
      modifies drones[k], this`completedCells, this`survivorFound
      ensures Valid() && Runs(old(Model()), events, Model()) && NoHandouts(events)
      ensures Views() == old(Views())[k := Moved(old(Views())[k], result)]
      ensures completedCells == old(completedCells) + Completed(old(Views())[k], result)
      ensures survivorFound == (old(survivorFound) || Finds(old(Views())[k], result.certain))
    {
      hide Runs, Possible, Next;
      ghost var before := Model();
      events := [];
      RunsNone(before);
      if !drones[k].alive || !drones[k].reachable {
        assert before.drones[k := before.drones[k]] == before.drones;
        return;
      }
      var arrived;
      arrived, events := Approach(k, result.certain);
      if arrived && result.done {
        ghost var middle := Model();
        ghost var e := Finish(k, result.certain);
        RunsOne(middle, e);
        RunsThen(before, events, middle, [e], Model());
        events := events + [e];
      }
    }

    /** One drone's turn, as the next steps of a run. */
    method MoveNext(k: nat, result: SearchResult, ghost start: Swarm, ghost soFar: seq<Event>)
        returns (ghost events: seq<Event>)
      requires Valid() && k < |drones| && Runs(start, soFar, Model()) && NoHandouts(soFar)
      modifies drones[k], this`completedCells, this`survivorFound
      ensures Valid() && Runs(start, events, Model()) && NoHandouts(events)
      ensures Views() == old(Views())[k := Moved(old(Views())[k], result)]
      ensures completedCells == old(completedCells) + Completed(old(Views())[k], result)
      ensures survivorFound == (old(survivorFound) || Finds(old(Views())[k], result.certain))
    {
      hide Runs, Moved, Completed, Views, Valid;
      ghost var before := Model();
      ghost var more := MoveOne(k, result);
      RunsThen(start, soFar, before, more, Model());
      events := soFar + more;
    }

    /** One of the first k drones finds the survivor. */
    ghost predicate FoundByFirst(ds: seq<Drone>, results: DroneId -> SearchResult, k: nat)
      requires k <= |ds|
      reads this`nowMs
    {
      exists i :: 0 <= i < k && Finds(ds[i], results(ds[i].id).certain)
    }

    lemma FoundNext(ds: seq<Drone>, results: DroneId -> SearchResult, k: nat)
      requires k < |ds|
      ensures !FoundByFirst(ds, results, 0)
      ensures FoundByFirst(ds, results, k + 1)
              == (FoundByFirst(ds, results, k) || Finds(ds[k], results(ds[k].id).certain))
    {}

    /** The turns of the first drones, up to the last. */
    method TakeTurns(results: DroneId -> SearchResult) returns (ghost events: seq<Event>)
      requires Valid()
      modifies drones, this`completedCells, this`survivorFound
      ensures Valid() && Runs(old(Model()), events, Model()) && NoHandouts(events)
      ensures forall i :: 0 <= i < |drones| ==> Views()[i] == Moved(old(Views())[i], results(drones[i].id))
      ensures completedCells == old(completedCells) + CompletedByFirst(old(Views()), results, |drones|)
      ensures survivorFound == (old(survivorFound) || FoundByFirst(old(Views()), results, |drones|))
    {
      hide Runs, Moved, Completed, Views, Valid, CompletedByFirst, Finds, FoundByFirst;
      events := [];
      assert NoHandouts(events);
      RunsNone(Model());
      ghost var ds := Views();
      NothingCompleted(ds, results);
      NothingFound(ds, results);
      assert TurnsTaken(ds, Views(), results, 0);
      hide NoHandouts, TurnsTaken;
      for k := 0 to |drones|
        invariant Valid() && Runs(old(Model()), events, Model()) && NoHandouts(events)
        invariant TurnsTaken(ds, Views(), results, k)
        invariant completedCells == old(completedCells) + CompletedByFirst(ds, results, k)
        invariant survivorFound == (old(survivorFound) || FoundByFirst(ds, results, k))
      {
        TurnTaken(ds, Views(), results, k);
        assert ds[k].id == drones[k].id;
        events := MoveNext(k, results(drones[k].id), old(Model()), events);
        CompletedNext(ds, results, k);
        FoundNext(ds, results, k);
      }
      AllTurnsTaken(ds, Views(), results);
    }

    lemma NothingFound(ds: seq<Drone>, results: DroneId -> SearchResult)
      ensures !FoundByFirst(ds, results, 0)
    {}

    /** What the searches of a tick change: cells completed, survivor found. */
    ghost predicate SearchOutcome(ds: seq<Drone>, results: DroneId -> SearchResult, completed0: set<Coord>,
                                  found0: bool)
      reads this`completedCells, this`survivorFound, this`nowMs
    {
      && (forall c :: c in completedCells <==>
            (c in completed0
             || exists i :: 0 <= i < |ds| && ds[i].alive && ds[i].reachable && ds[i].target == Some(c)
                            && ds[i].position == c && results(ds[i].id).done && results(ds[i].id).certain))
      && survivorFound ==
         (found0 || exists i :: 0 <= i < |ds| && ds[i].alive && ds[i].reachable && ds[i].target == Some(target)
                                && ds[i].position == target && nowMs / 1000 >= targetUnlockAtS
                                && results(ds[i].id).certain)
    }

    /** The survivor is found exactly when it was found before, or a working drone stands on the search target
        as its own target, the target is unlocked, and the drone's result is certain. */
    lemma FoundExactly(ds: seq<Drone>, results: DroneId -> SearchResult, completed0: set<Coord>, found0: bool)
      requires SearchOutcome(ds, results, completed0, found0)
      ensures found0 ==> survivorFound
      ensures forall i :: 0 <= i < |ds| && ds[i].alive && ds[i].reachable && ds[i].target == Some(target)
                          && ds[i].position == target && nowMs / 1000 >= targetUnlockAtS
                          && results(ds[i].id).certain ==>
        survivorFound
      ensures survivorFound && !found0 ==>
        exists i :: 0 <= i < |ds| && ds[i].alive && ds[i].reachable && ds[i].target == Some(target)
                    && ds[i].position == target && nowMs / 1000 >= targetUnlockAtS && results(ds[i].id).certain
      ensures completed0 <= completedCells
      ensures forall c :: c in completedCells && c !in completed0 ==>
        exists i :: 0 <= i < |ds| && ds[i].alive && ds[i].reachable && ds[i].target == Some(c) && ds[i].position == c
                    && results(ds[i].id).done && results(ds[i].id).certain
      ensures forall i :: 0 <= i < |ds| && ds[i].alive && ds[i].reachable && ds[i].target == Some(ds[i].position)
                          && results(ds[i].id).done && results(ds[i].id).certain ==>
        ds[i].position in completedCells
    {}

    /** Every drone's turn. Certain searches complete their cells; the survivor is found by a drone that
        is certain of the search target once it is unlocked. */
    method MoveAndSearch(results: DroneId -> SearchResult) returns (ghost events: seq<Event>)
      requires Valid()
      modifies drones, this`completedCells, this`survivorFound
      ensures Valid() && Runs(old(Model()), events, Model()) && NoHandouts(events)
      ensures forall i :: 0 <= i < |drones| ==> Views()[i] == Moved(old(Views())[i], results(drones[i].id))
      ensures SearchOutcome(old(Views()), results, old(completedCells), old(survivorFound))
    {
      hide Runs, Moved, Completed, Valid, CompletedByFirst, NoHandouts;
      ghost var ds := Views();
      events := TakeTurns(results);
      CompletedInWords(ds, results, |drones|);
    }

    /** Failure and recovery: only the drone planned to fail leaves the mesh or returns. */
    method FailAndRecover() returns (ghost events: seq<Event>, ghost outages: seq<WatchEvent>)
      requires Valid()
      modifies drones, this`failureTriggered, this`recovered
      ensures Valid() && Runs(old(Model()), events, Model()) && NoHandouts(events)
      ensures Watched(old(Watching()), outages, Watching(), staleAfterMs) && Planned(outages, |drones|)
      ensures forall i :: 0 <= i < |drones| && Some(drones[i].id) != failDrone ==> Views()[i] == old(Views())[i]
      ensures failureTriggered
          == (old(failureTriggered) || (failDrone.Some? && failAt.Some? && nowMs / 1000 >= failAt.value))
      ensures old(recovered) <= recovered
    {
      hide Runs, Possible, Next, Views, Valid, Active, FailureDue, Recovers, Restored, Watched;
      ghost var start, w := Model(), Watching();
      ghost var failed := InjectFailure();
      ghost var middle := Model();
      ghost var returned := CheckRecovery();
      RunsThen(start, failed, middle, returned, Model());
      events := failed + returned;
      outages := MirrorOutages(start, events, Model(), w, staleAfterMs);
    }

    /** Failure, recovery and the heartbeat step. */
    method FailAndBeat() returns (ghost events: seq<Event>, ghost outages: seq<WatchEvent>, ghost beaten: Watch)
      requires Valid() && Listening() && nowMs >= beatMs
      modifies drones, registries, resolver, this`failureTriggered, this`recovered, this`beatMs, this`releasedCell,
               this`releaseTimeS, this`releaseQueue
      ensures Valid() && Listening() && beatMs == nowMs
      ensures Runs(old(Model()), events, Model()) && NoHandouts(events)
      ensures Watched(old(Watching()), outages, beaten, staleAfterMs) && Planned(outages, |drones|)
      ensures |beaten.drones| == |drones| && beaten.beatMs <= nowMs
      ensures Watching() == HeartbeatStep(beaten, nowMs, staleAfterMs)
      ensures forall i :: 0 <= i < |drones| && Some(drones[i].id) != failDrone && old(Active(Views()[i])) ==>
        Active(Views()[i])
      ensures failureTriggered
          == (old(failureTriggered) || (failDrone.Some? && failAt.Some? && nowMs / 1000 >= failAt.value))
    {
      hide Runs, Possible, Next, Overdue, HeartbeatStep, Views, Valid, Listening, Active, Watched, NoHandouts, Planned;
      ghost var start := Model();
      events, outages := FailAndRecover();
      beaten := Watching();
      ghost var middle := Model();
      ghost var beats := HeartbeatTick();
      RunsThen(start, events, middle, beats, Model());
      QuietTogether(events, beats);
      events := events + beats;
      forall i | 0 <= i < |drones| && Some(drones[i].id) != failDrone && old(Active(Views()[i]))
        ensures Active(Views()[i])
      {
        BeatingDroneKept(beaten, nowMs, staleAfterMs, i);
      }
    }

    /** The part of a tick before the assignment pass: failure and recovery, heartbeats, movement. */
    method Act(results: DroneId -> SearchResult)
        returns (ghost events: seq<Event>, ghost outages: seq<WatchEvent>, ghost beaten: Watch,
                 ghost acts: seq<WatchEvent>)
      requires Valid() && Listening() && nowMs >= beatMs
      modifies drones, registries, resolver, this`failureTriggered, this`recovered, this`beatMs, this`releasedCell,
               this`releaseTimeS, this`releaseQueue, this`completedCells, this`survivorFound
      ensures Valid() && Listening() && beatMs == nowMs
      ensures Runs(old(Model()), events, Model()) && NoHandouts(events)
      ensures Watched(old(Watching()), outages, beaten, staleAfterMs) && Planned(outages, |drones|)
      ensures |beaten.drones| == |drones| && beaten.beatMs <= nowMs
      ensures Watched(HeartbeatStep(beaten, nowMs, staleAfterMs), acts, Watching(), staleAfterMs) && OnlyActs(acts)
      ensures forall i :: 0 <= i < |drones| ==>
        Views()[i] == Moved(HeartbeatStep(beaten, nowMs, staleAfterMs).drones[i], results(drones[i].id))
      ensures forall i :: 0 <= i < |drones| && Some(drones[i].id) != failDrone && old(Active(Views()[i])) ==>
        Active(Views()[i])
      ensures failureTriggered
          == (old(failureTriggered) || (failDrone.Some? && failAt.Some? && nowMs / 1000 >= failAt.value))
      ensures SearchOutcome(HeartbeatStep(beaten, nowMs, staleAfterMs).drones, results, old(completedCells),
                            old(survivorFound))
    {
      hide Runs, Possible, Next, Overdue, HeartbeatStep, Moved, Views, Valid, Listening, Active, Watched, SameMesh,
           Acts, SearchOutcome, NoHandouts, Planned;
      ghost var start := Model();
      events, outages, beaten := FailAndBeat();
      ghost var heard, after := Model(), Watching();
      ghost var moves := MoveAndSearch(results);
      RunsThen(start, events, heard, moves, Model());
      QuietTogether(events, moves);
      events := events + moves;
      MovesKeepMesh(after.drones, Views(), results);
      AllAct(after, Views(), staleAfterMs);
      acts := Acts(Views(), |Views()|);
      forall i | 0 <= i < |drones| && Some(drones[i].id) != failDrone && old(Active(Views()[i]))
        ensures Active(Views()[i])
      {
        MovedStaysActive(after.drones[i], results(drones[i].id));
      }
    }

    /** The assignment pass of a tick, unless the survivor was found and that ends the search. */
    method AssignUnlessFound(views: DroneId -> MapView, common: MapView, polls: Coord -> seq<seq<VoteRecord>>,
                             stopOnSurvivor: bool)
        returns (ok: bool, ghost pass: Pass)
      requires Valid() && (forall id :: views(id).size == size) && common.size == size
      modifies drones, resolver, this`reclaimedTimeS, this`releaseQueue, this`targetQueue, this`targetPriorityArmed,
               this`contentionComplete
      ensures Valid() && SameMesh(old(Views()), Views())
      ensures survivorFound && stopOnSurvivor ==>
        ok && Model() == old(Model()) && pass == EmptyPass(old(Model()))
      ensures !(survivorFound && stopOnSurvivor) ==>
        && Passed(old(Model()), pass, views, common, BlockedZones(), nowMs, ok)
        && pass.reached.drones == Views() && (ok ==> pass.reached == Model())
      ensures SwarmInv(old(Model())) ==>
        && SwarmInv(pass.ready)
        && (Safe(Views()) <==> HandoutsFree(pass.ready, pass.recalled) || (survivorFound && stopOnSurvivor))
        && (Safe(Views()) ==> SwarmInv(pass.reached))
    {
      hide Runs, Possible, Next, Views, Valid, SwarmInv, Safe, Passed, HandoutsFree, RequeueDue, TargetDue;
      ghost var start := Model();
      if survivorFound && stopOnSurvivor {
        if SwarmInv(start) {
          InvIsSafe(start);
        }
        return true, EmptyPass(start);
      }
      ok, pass := AssignIdleDrones(views, common, polls);
      PassOutcome(start, pass, views, common, BlockedZones(), nowMs, ok);
    }

    /** One tick: the clock, the planned failure and recovery, heartbeats, movement, assignment. Maps and
        votes come from outside. False: the assignment pass failed for want of votes. */
    method Tick(tickMs: nat, views: DroneId -> MapView, common: MapView, polls: Coord -> seq<seq<VoteRecord>>,
                results: DroneId -> SearchResult, stopOnSurvivor: bool)
        returns (ok: bool, ghost course: Course)
      requires Valid() && Listening() && nowMs >= beatMs
      requires (forall id :: views(id).size == size) && common.size == size
      modifies this, drones, registries, resolver
      ensures Valid() && Listening() && nowMs == beatMs == old(nowMs) + tickMs
      ensures Runs(old(Model()), course.before, course.acted) && NoHandouts(course.before)
      ensures |course.beaten.drones| == |course.acted.drones| == |drones|
      ensures forall i :: 0 <= i < |drones| ==>
        course.acted.drones[i]
            == Moved(HeartbeatStep(course.beaten, nowMs, staleAfterMs).drones[i], results(drones[i].id))
      ensures survivorFound && stopOnSurvivor ==> ok && course.acted == Model() && course.pass == EmptyPass(Model())
      ensures !(survivorFound && stopOnSurvivor) ==>
        && Passed(course.acted, course.pass, views, common, BlockedZones(), nowMs, ok)
        && course.pass.reached.drones == Views() && (ok ==> course.pass.reached == Model())
      ensures SwarmInv(old(Model())) ==>
        && SwarmInv(course.acted) && SwarmInv(course.pass.ready)
        && (Safe(Views()) <==>
          HandoutsFree(course.pass.ready, course.pass.recalled) || (survivorFound && stopOnSurvivor))
        && (Safe(Views()) ==> SwarmInv(course.pass.reached))
      ensures Watched(old(Watching()), course.outages, course.beaten, staleAfterMs) && Planned(course.outages, |drones|)
      ensures OnlyActs(course.acts)
      ensures Watched(old(Watching()), course.outages + [Beat(nowMs)] + course.acts, Watching(), staleAfterMs)
      ensures forall i :: 0 <= i < |drones| && Some(drones[i].id) != failDrone && old(Active(Views()[i])) ==>
        Active(Views()[i])
      ensures failureTriggered
          == (old(failureTriggered) || (failDrone.Some? && failAt.Some? && nowMs / 1000 >= failAt.value))
      ensures SearchOutcome(HeartbeatStep(course.beaten, nowMs, staleAfterMs).drones, results, old(completedCells),
                            old(survivorFound))
    {
      hide SearchOutcome;
      hide Runs, Possible, Next, Overdue, HeartbeatStep, Moved, Views, Valid, Listening, SwarmInv, Active, Safe, Passed,
           Watched, HandoutsFree, SameMesh, Acts, OnlyActs, NoHandouts, Planned, PassEvents, PriorityEvents, RequeueDue,
           TargetDue;
      ghost var start, w := Model(), Watching();
      nowMs := nowMs + tickMs;
      ghost var before, outages, beaten, acts := Act(results);
      ghost var acted, moved := Model(), Watching();
      InvKept(start, before, acted);
      ghost var pass;
      ok, pass := AssignUnlessFound(views, common, polls, stopOnSurvivor);
      SeenInTick(w, outages, beaten, nowMs, acts, moved, Views(), staleAfterMs);
      course := Course(outages, beaten, before, acted, acts + Acts(Views(), |Views()|), pass);
    }

    lemma ClaimsKnown(s: Swarm, views: DroneId -> MapView, blocked: set<Coord>, nowMs: int, claims: seq<ClaimRequest>)
      requires |s.drones| == |drones| && forall i :: 0 <= i < |drones| ==> s.drones[i].id == drones[i].id
      requires DistinctIds(s.drones) && claims == RoundClaims(s, views, blocked, nowMs)
      ensures forall k :: 0 <= k < |claims| ==> Knows(claims[k].droneId)
    {
      hide GatherClaims, ClaimedZones;
      var idle := IdleOf(s.drones);
      IdleDistinct(s.drones);
      ClaimFacts(idle, views, ClaimedZones(s.drones), blocked, !s.contended, nowMs);
      forall k | 0 <= k < |claims| ensures Knows(claims[k].droneId) {
        assert Among(idle, claims[k].droneId);
        var m :| 0 <= m < |idle| && idle[m].id == claims[k].droneId;
        assert idle[m] in idle;
        var i :| 0 <= i < |s.drones| && s.drones[i] == idle[m];
        assert drones[i].id == claims[k].droneId;
      }
    }
  }

  lemma ClaimsAreRoundClaims(s: Swarm, idle: seq<nat>, views: DroneId -> MapView, blocked: set<Coord>, nowMs: int)
    requires idle == IdleFrom(s.drones, 0)
    ensures GatherClaims(At(s.drones, idle), views, ClaimedZones(s.drones), blocked, !s.contended, nowMs)
            == RoundClaims(s, views, blocked, nowMs)
  {
    hide GatherClaims, ClaimedZones;
    IdleFromIsIdleOf(s.drones, 0);
    assert s.drones[0..] == s.drones;
    assert At(s.drones, idle) == IdleOf(s.drones);
  }

  /** The positions of the working drones from index k on. */
  function OnlineFrom(ds: seq<Drone>, k: nat): (indices: seq<nat>)
    requires k <= |ds|
    ensures forall m :: 0 <= m < |indices| ==> k <= indices[m] < |ds| && Active(ds[indices[m]])
    ensures forall i :: k <= i < |ds| && Active(ds[i]) ==> i in indices
    decreases |ds| - k
  {
    if k == |ds| then []
    else if Active(ds[k]) then [k] + OnlineFrom(ds, k + 1)
    else OnlineFrom(ds, k + 1)
  }

  lemma OnlineIds(ds: seq<Drone>, observers: seq<nat>, ids: seq<DroneId>)
    requires observers == OnlineFrom(ds, 0) && |ids| == |observers|
    requires forall k :: 0 <= k < |ids| ==> ids[k] == ds[observers[k]].id
    ensures Elements(ids) == Online(ds)
    ensures observers == [] <==> Online(ds) == {}
  {
    forall id ensures id in Elements(ids) <==> id in Online(ds) {
      if id in Online(ds) {
        var i :| 0 <= i < |ds| && Active(ds[i]) && ds[i].id == id;
        var k :| 0 <= k < |observers| && observers[k] == i;
        assert ids[k] == id;
      }
    }
    assert observers != [] ==> ids[0] in Elements(ids);
  }

  /** What the certainty maps report about a drone's search: its assignment is complete, its cell is certain. */
  datatype SearchResult = SearchResult(done: bool, certain: bool)

  /** A move, or a search of the cell the drone stands on. */
  function Advanced(d: Drone): Drone {
    if d.target.None? then d.(status := IdleStatus)
    else if d.position != d.target.value then Stepped(d)
    else d.(status := Searching, searchedCells := d.searchedCells + 1)
  }

  /** A drone's turn: if it works it moves, or searches and lets go of a completed cell. */
  function Moved(d: Drone, result: SearchResult): Drone {
    if !Active(d) then d
    else if d.target == Some(d.position) && result.done then Cleared(Advanced(d))
    else Advanced(d)
  }

  /** The first k drones have had their turn. */
  ghost predicate TurnsTaken(ds: seq<Drone>, es: seq<Drone>, results: DroneId -> SearchResult, k: nat) {
    && |es| == |ds|
    && forall i :: 0 <= i < |ds| ==> es[i] == if i < k then Moved(ds[i], results(ds[i].id)) else ds[i]
  }

  lemma TurnTaken(ds: seq<Drone>, es: seq<Drone>, results: DroneId -> SearchResult, k: nat)
    requires TurnsTaken(ds, es, results, k) && k < |ds|
    ensures |es| == |ds| && es[k] == ds[k]
    ensures TurnsTaken(ds, es[k := Moved(ds[k], results(ds[k].id))], results, k + 1)
  {}

  lemma AllTurnsTaken(ds: seq<Drone>, es: seq<Drone>, results: DroneId -> SearchResult)
    requires TurnsTaken(ds, es, results, |ds|)
    ensures |es| == |ds| && forall i :: 0 <= i < |ds| ==> es[i] == Moved(ds[i], results(ds[i].id))
  {}

  /** A turn in plain words: a drone off the mesh does nothing; without a target it is idle; away from its
      target it moves one cell nearer; on it, it searches once more, and lets go when the search is done. */
  lemma MovedInWords(d: Drone, result: SearchResult)
    ensures var r := Moved(d, result);
      && r.id == d.id && r.alive == d.alive && r.reachable == d.reachable
      && (!d.alive || !d.reachable ==> r == d)
      && (d.alive && d.reachable && d.target.None? ==> r == d.(status := IdleStatus))
      && (d.alive && d.reachable && d.target.Some? && d.position != d.target.value ==>
            && Manhattan(r.position, d.target.value) == Manhattan(d.position, d.target.value) - 1
            && r.target == d.target && r.claimed == d.claimed && r.subzone == d.subzone
            && r.searchedCells == d.searchedCells
            && r.status == if r.position == d.target.value then Searching else Transiting)
    ensures var r := Moved(d, result);
      d.alive && d.reachable && d.target == Some(d.position) ==>
        && r.position == d.position && r.searchedCells == d.searchedCells + 1
        && (result.done ==> r.target.None? && r.claimed.None? && r.subzone == Whole && r.status == IdleStatus)
        && (!result.done ==> r.target == d.target && r.claimed == d.claimed && r.subzone == d.subzone
                             && r.status == Searching)
  {}

  function Completed(d: Drone, result: SearchResult): set<Coord> {
    if Active(d) && d.target.Some? && d.position == d.target.value && result.done && result.certain
        then {d.target.value} else {}
  }

  /** A drone that returns is where it was, working, idle and without a cell; no other drone changes. */
  lemma RestoredAnew(d: Drone)
    ensures Restored(d, false) == d
    ensures var r := Restored(d, true);
      && r.id == d.id && r.position == d.position && r.searchedCells == d.searchedCells
      && r.alive && r.reachable && r.status == IdleStatus && r.target.None? && r.claimed.None? && r.subzone == Whole
  {}

  /** The cells completed by the first k drones. */
  function CompletedByFirst(ds: seq<Drone>, results: DroneId -> SearchResult, k: nat): set<Coord>
    requires k <= |ds|
  {
    if k == 0 then {} else CompletedByFirst(ds, results, k - 1) + Completed(ds[k - 1], results(ds[k - 1].id))
  }

  lemma {:induction false} CompletedInWords(ds: seq<Drone>, results: DroneId -> SearchResult, k: nat)
    requires k <= |ds|
    ensures forall c :: c in CompletedByFirst(ds, results, k) <==>
      exists i :: 0 <= i < k && ds[i].alive && ds[i].reachable && ds[i].target == Some(c) && ds[i].position == c
                  && results(ds[i].id).done && results(ds[i].id).certain
  {
    if k > 0 {
      CompletedInWords(ds, results, k - 1);
    }
  }

  lemma NothingCompleted(ds: seq<Drone>, results: DroneId -> SearchResult)
    ensures CompletedByFirst(ds, results, 0) == {}
  {}

  lemma CompletedNext(ds: seq<Drone>, results: DroneId -> SearchResult, k: nat)
    requires k < |ds|
    ensures CompletedByFirst(ds, results, k + 1)
        == CompletedByFirst(ds, results, k) + Completed(ds[k], results(ds[k].id))
  {}

  function Restored(d: Drone, back: bool): Drone {
    if back then Revived(d, d.position) else d
  }

  lemma FailPossible(s: Swarm, k: nat)
    requires k < |s.drones| && Active(s.drones[k])
    ensures Possible(s, Fail(k))
  {}

  lemma StalePossible(s: Swarm, k: nat)
    requires k < |s.drones| && s.drones[k].alive
    ensures Possible(s, GoStale(k))
    ensures var cell := s.drones[k].claimed;
      Next(s, GoStale(k)) == s.(drones := s.drones[k := MarkedStale(s.drones[k])],
        releases := if cell.Some? && cell.value !in s.releases then s.releases + [cell.value] else s.releases,
        released := if cell.Some? then cell else s.released)
  {}

  /** Announcing a claim first makes no difference to a priority step. */
  lemma PriorityPossible(s: Swarm, middle: seq<Drone>, k: nat, a: ZoneAssignment)
    requires DistinctIds(s.drones) && k < |s.drones| && Active(s.drones[k]) && s.drones[k].target.None?
    requires a.reason in {PriorityReclaim, PriorityTarget} && a.droneId == s.drones[k].id && a.subzone == Whole
    requires middle == s.drones[k := s.drones[k].(status := Computing)]
    requires if a.reason == PriorityReclaim then s.releases != [] && s.releases[0] == a.cell
             else s.targets != [] && s.targets[0] == a.cell
    ensures Possible(s, Priority(k, a.cell, a.reason))
    ensures Next(s, Priority(k, a.cell, a.reason)) == s.(drones := ApplyTo(middle, a),
      releases := if a.reason == PriorityReclaim then s.releases[1..] else s.releases,
      targets := if a.reason == PriorityReclaim then s.targets else s.targets[1..])
  {
    var r := ApplyTo(middle, a);
    assert r == s.drones[k := Applied(s.drones[k], a)];
    assert a == ZoneAssignment(s.drones[k].id, a.cell, a.reason, Whole);
  }

  lemma RecoverPossible(s: Swarm, k: nat)
    requires k < |s.drones| && !Active(s.drones[k])
    ensures Possible(s, Recover(k))
  {}

  lemma ClearPossible(s: Swarm, k: nat)
    requires k < |s.drones| && Active(s.drones[k])
    ensures Possible(s, Clear(k)) && Next(s, Clear(k)) == s.(drones := s.drones[k := Cleared(s.drones[k])])
  {}

  lemma WorkPossible(s: Swarm, k: nat, d: Drone)
    requires k < |s.drones| && Active(s.drones[k])
    requires d == s.drones[k].(position := d.position, status := d.status, searchedCells := d.searchedCells)
    ensures Possible(s, Work(k, d.position, d.status, d.searchedCells))
    ensures Next(s, Work(k, d.position, d.status, d.searchedCells)) == s.(drones := s.drones[k := d])
  {
    assert d == s.drones[k].(position := d.position, status := d.status, searchedCells := d.searchedCells);
  }

  lemma CarefulIsSafe(s: Swarm, events: seq<Event>, t: Swarm)
    requires Runs(s, events, t)
    ensures SwarmInv(s) && AllCareful(s, events) ==> SwarmInv(t) && Safe(t.drones)
  {
    hide Runs, AllCareful, Safe;
    if SwarmInv(s) && AllCareful(s, events) {
      CarefulRunKeepsInv(s, events, t);
    }
  }

  /** What the votes do to a drone. */
  function Judged(d: Drone, votes: map<DroneId, nat>, quorum: nat): Drone {
    if d.alive && d.id in votes && votes[d.id] >= quorum then MarkedStale(d) else d
  }

  lemma ObserversOnline(ds: seq<Drone>, observers: seq<nat>)
    requires observers == OnlineFrom(ds, 0)
    ensures observers == [] <==> Online(ds) == {}
  {
    assert observers != [] ==> ds[observers[0]].id in Online(ds);
    if id :| id in Online(ds) {
      var i :| 0 <= i < |ds| && Active(ds[i]) && ds[i].id == id;
      assert i in observers;
    }
  }

  lemma NobodyHeard(lastSeen: map<DroneId, int>, ids: set<DroneId>, nowMs: int)
    ensures lastSeen == map[] && ids == {} ==> Beaten(lastSeen, ids, nowMs) == map[]
  {}

  /** With equal records the majority vote is the overdue test. */
  lemma VotesMakeStep(w: Watch, es: seq<Drone>, n: nat, votes: map<DroneId, nat>, quorum: nat, nowMs: int,
                      timeoutMs: int)
    requires |es| == |w.drones| && (n == 0 <==> Online(w.drones) == {})
    requires quorum == (if n / 2 + 1 > 1 then n / 2 + 1 else 1)
    requires forall d :: d in votes <==>
      n > 0 && d in Overdue(Beaten(w.lastSeen, Online(w.drones), nowMs), nowMs, timeoutMs)
    requires forall d :: d in votes ==> votes[d] == n
    requires forall i :: 0 <= i < |es| ==> es[i] == Judged(w.drones[i], votes, quorum)
    ensures Watch(es, Beaten(w.lastSeen, Online(w.drones), nowMs), nowMs) == HeartbeatStep(w, nowMs, timeoutMs)
  {
    hide Overdue, Beaten, Online;
    var r := HeartbeatStep(w, nowMs, timeoutMs);
    forall i | 0 <= i < |es| ensures es[i] == r.drones[i] {
      var id := w.drones[i].id;
      assert id in votes ==> votes[id] == n && n >= quorum;
    }
  }

  /** What was overdue and has not beaten since is still overdue. */
  lemma StaleStaysOverdue(lastSeen: map<DroneId, int>, ids: set<DroneId>, beatMs: int, nowMs: int, timeoutMs: int)
    requires nowMs >= beatMs
    ensures forall d :: d in Overdue(lastSeen, beatMs, timeoutMs) && d !in ids ==>
      d in Overdue(Beaten(lastSeen, ids, nowMs), nowMs, timeoutMs)
  {}

  lemma ContendedFlag(claims: seq<ClaimRequest>, cells: seq<Coord>, grouped: map<Coord, seq<ClaimRequest>>)
    requires forall c :: c in cells <==> c in grouped
    requires forall c :: c in grouped <==> GroupOf(claims, c) != []
    ensures (exists c :: c in cells && |GroupOf(claims, c)| > 1) <==> Contest(claims)
  {
    if Contest(claims) {
      var c :| |GroupOf(claims, c)| > 1;
      assert c in cells;
    }
  }

  /** The cells of a set in ascending order. */
  method SortedCells(keys: set<Coord>) returns (cells: seq<Coord>)
    ensures Ascending(cells) && Distinct(cells)
    ensures forall c :: c in cells <==> c in keys
  {
    hide Sort;
    var listed := ListSet(keys);
    SortAscending(listed);
    cells := Sort(listed, TupleLe);
    assert forall c :: c in cells <==> c in Elements(cells);
  }

  lemma NotEarlier(cells: seq<Coord>, k: nat)
    requires Distinct(cells) && k < |cells|
    ensures cells[k] !in cells[..k]
  {}

  lemma SoFarNothing(claims: seq<ClaimRequest>, view: MapView, claimed: set<Coord>)
    ensures SoFar([], claims, {}, view, claimed)
  {}

  lemma ApplyNothing(ds: seq<Drone>)
    ensures ApplyAll(ds, []) == ds
  {}

  /** The state of the claim loop after k idle drones: who announced what, and what is still to come. */
  ghost predicate ClaimsUnderway(ds: seq<Drone>, es: seq<Drone>, idle: seq<nat>, k: nat, claims: seq<ClaimRequest>,
                            views: DroneId -> MapView, reserved: set<Coord>, blocked: set<Coord>, shared: bool,
                            nowMs: int, all: seq<ClaimRequest>)
  {
    && DistinctIds(ds) && idle == IdleFrom(ds, 0) && k <= |idle| && |es| == |ds|
    && claims + GatherClaims(At(ds, idle)[k..], views, reserved, blocked, shared, nowMs) == all
    && (forall m :: 0 <= m < |claims| ==> FromFirst(ds, idle, k, claims[m].droneId))
    && (forall i :: 0 <= i < |ds| ==> es[i] == if i in idle[..k] then Announce(ds[i], all) else ds[i])
  }

  ghost predicate FromFirst(ds: seq<Drone>, idle: seq<nat>, k: nat, id: DroneId)
    requires k <= |idle| && forall m :: 0 <= m < |idle| ==> idle[m] < |ds|
  {
    exists n :: 0 <= n < k && ds[idle[n]].id == id
  }

  lemma GatheringStart(ds: seq<Drone>, idle: seq<nat>, views: DroneId -> MapView, claimed: set<Coord>,
                       blocked: set<Coord>, shared: bool, nowMs: int)
    requires DistinctIds(ds) && idle == IdleFrom(ds, 0)
    ensures ClaimsUnderway(ds, ds, idle, 0, [], views, claimed, blocked, shared, nowMs,
                      GatherClaims(At(ds, idle), views, claimed, blocked, shared, nowMs))
  {
    hide GatherClaims, IdleFrom;
    assert At(ds, idle)[0..] == At(ds, idle);
  }

  lemma GatheringEnd(ds: seq<Drone>, es: seq<Drone>, idle: seq<nat>, claims: seq<ClaimRequest>,
                     views: DroneId -> MapView, reserved: set<Coord>, blocked: set<Coord>, shared: bool, nowMs: int,
                     all: seq<ClaimRequest>)
    requires ClaimsUnderway(ds, es, idle, |idle|, claims, views, reserved, blocked, shared, nowMs, all)
    ensures claims == all && es == Announced(ds, claims)
  {
    hide IdleFrom, Announce;
    assert At(ds, idle)[|idle|..] == [] && idle[..|idle|] == idle;
    AllAnnounced(ds, es, idle, all);
  }

  lemma GatheringStep(ds: seq<Drone>, es: seq<Drone>, idle: seq<nat>, k: nat, claims: seq<ClaimRequest>,
                      views: DroneId -> MapView, reserved: set<Coord>, blocked: set<Coord>, shared: bool, nowMs: int,
                      all: seq<ClaimRequest>, claim: Option<ClaimRequest>)
    requires k < |idle| && ClaimsUnderway(ds, es, idle, k, claims, views, reserved, blocked, shared, nowMs, all)
    requires idle[k] < |es|
    requires var d := es[idle[k]];
      var selection := SelectNextZone(views(d.id), reserved + blocked, d.position, shared);
      claim == if selection.None? then None else Some(ClaimFor(d, selection.value, nowMs))
    ensures ClaimsUnderway(ds, es[idle[k] := es[idle[k]].(status := if claim.None? then IdleStatus else Claiming)],
                           idle, k + 1,
                      claims + (if claim.None? then [] else [claim.value]), views,
                      if shared || claim.None? then reserved else reserved + {claim.value.cell},
                      blocked, shared, nowMs, all)
  {
    hide SelectNextZone, GatherClaims, IdleFrom, Claims;
    var list := At(ds, idle);
    IdleListDistinct(ds, idle);
    assert list[k..][0] == list[k] && list[k..][1..] == list[k + 1..];
    assert es[idle[k]] == ds[idle[k]];
    ChoiceAnnounced(ds, idle, k, claims, views, reserved, blocked, shared, nowMs, all);
    GatherUnfold(list[k..], views, reserved, blocked, shared, nowMs);
    assert idle[..k + 1] == idle[..k] + [idle[k]];
  }

  lemma {:induction false} OnlyIdle(ds: seq<Drone>, es: seq<Drone>, from: nat, k: nat)
    requires from <= |ds| && k < |ds| && IdleFrom(ds, from) == []
    requires es == ds[k := Cleared(ds[k])] && Active(ds[k])
    ensures IdleFrom(es, from) == if from <= k then [k] else []
    decreases |ds| - from
  {
    if from < |ds| {
      OnlyIdle(ds, es, from + 1, k);
    }
  }

  lemma {:induction false} IdleFromComplete(ds: seq<Drone>, k: nat, i: nat)
    requires k <= i < |ds| && Active(ds[i]) && ds[i].target.None?
    ensures i in IdleFrom(ds, k)
    decreases i - k
  {
    if k < i {
      IdleFromComplete(ds, k + 1, i);
    }
  }

  lemma IdleListDistinct(ds: seq<Drone>, idle: seq<nat>)
    requires DistinctIds(ds) && idle == IdleFrom(ds, 0)
    ensures DistinctIds(At(ds, idle))
    ensures forall m, n :: 0 <= m < n < |idle| ==> idle[m] != idle[n]
    ensures forall m :: 0 <= m < |idle| ==> Active(ds[idle[m]]) && ds[idle[m]].target.None?
  {
    hide IdleFrom;
  }

  lemma AllAnnounced(ds: seq<Drone>, es: seq<Drone>, idle: seq<nat>, claims: seq<ClaimRequest>)
    requires |es| == |ds| && idle == IdleFrom(ds, 0)
    requires forall i :: 0 <= i < |ds| ==> es[i] == if i in idle then Announce(ds[i], claims) else ds[i]
    ensures es == Announced(ds, claims)
  {
    hide IdleFrom, Claims;
    forall i | 0 <= i < |ds| ensures es[i] == Announce(ds[i], claims) {
      if Active(ds[i]) && ds[i].target.None? {
        IdleFromComplete(ds, 0, i);
      }
    }
  }

  lemma GatherUnfold(idle: seq<Drone>, views: DroneId -> MapView, taken: set<Coord>, blocked: set<Coord>, shared: bool,
                     nowMs: int)
    requires idle != []
    ensures var selection := SelectNextZone(views(idle[0].id), taken + blocked, idle[0].position, shared);
      GatherClaims(idle, views, taken, blocked, shared, nowMs)
      == (if selection.None? then [] else [ClaimFor(idle[0], selection.value, nowMs)])
         + GatherClaims(idle[1..], views, if shared || selection.None? then taken else taken + {selection.value},
                        blocked, shared, nowMs)
  {
    hide SelectNextZone;
  }

  /** A drone announces a claim exactly when its own selection finds a cell. */
  lemma ChoiceAnnounced(ds: seq<Drone>, idle: seq<nat>, k: nat, claims: seq<ClaimRequest>, views: DroneId -> MapView,
                        taken: set<Coord>, blocked: set<Coord>, shared: bool, nowMs: int, all: seq<ClaimRequest>)
    requires (forall m :: 0 <= m < |idle| ==> idle[m] < |ds|) && k < |idle|
    requires DistinctIds(At(ds, idle))
    requires forall m :: 0 <= m < |claims| ==> FromFirst(ds, idle, k, claims[m].droneId)
    requires claims + GatherClaims(At(ds, idle)[k..], views, taken, blocked, shared, nowMs) == all
    ensures var d := ds[idle[k]];
      Claims(all, d.id) <==> SelectNextZone(views(d.id), taken + blocked, d.position, shared).Some?
  {
    hide SelectNextZone, GatherClaims;
    var list := At(ds, idle);
    var rest := list[k..];
    var more := GatherClaims(rest, views, taken, blocked, shared, nowMs);
    FirstClaims(rest, views, taken, blocked, shared, nowMs);
    var id := ds[idle[k]].id;
    forall m | 0 <= m < |claims| ensures claims[m].droneId != id {
      assert FromFirst(ds, idle, k, claims[m].droneId);
      var n :| 0 <= n < k && ds[idle[n]].id == claims[m].droneId;
      assert list[n].id != list[k].id;
    }
    if Claims(all, id) {
      var m :| 0 <= m < |all| && all[m].droneId == id;
      assert all[m] == more[m - |claims|];
    }
    if Claims(more, id) {
      var m :| 0 <= m < |more| && more[m].droneId == id;
      assert all[|claims| + m].droneId == id;
    }
  }

  /** A priority step takes the first idle drone off the list. */
  lemma PriorityPops(s: Swarm, k: nat, cell: Coord, reason: Reason)
    requires Possible(s, Priority(k, cell, reason)) && IdleFrom(s.drones, 0) != [] && IdleFrom(s.drones, 0)[0] == k
    ensures IdleFrom(Next(s, Priority(k, cell, reason)).drones, 0) == IdleFrom(s.drones, 0)[1..]
  {
    IdleAfterPop(s.drones, Next(s, Priority(k, cell, reason)).drones, 0);
  }

  method BuildRegistries(n: nat) returns (rs: seq<HeartbeatRegistry>)
    ensures |rs| == n && fresh(rs)
    ensures forall i :: 0 <= i < n ==> rs[i].lastSeen == map[] && rs[i].stale == {}
    ensures forall i, j :: 0 <= i < j < n ==> rs[i] != rs[j]
  {
    rs := [];
    for k := 0 to n
      invariant |rs| == k && fresh(rs)
      invariant forall i :: 0 <= i < k ==> rs[i].lastSeen == map[] && rs[i].stale == {}
      invariant forall i, j :: 0 <= i < j < k ==> rs[i] != rs[j]
    {
      var r := new HeartbeatRegistry();
      rs := rs + [r];
    }
  }

  method BuildDrones(ids: seq<DroneId>, positions: DroneId -> Coord) returns (ds: seq<DroneState>)
    requires Distinct(ids)
    ensures |ds| == |ids| && fresh(ds)
    ensures forall i :: 0 <= i < |ds| ==>
      ds[i].Snapshot() == Drone(ids[i], positions(ids[i]), IdleStatus, None, None, Whole, true, true, 0)
    ensures forall i, j :: 0 <= i < j < |ds| ==> ds[i] != ds[j]
  {
    ds := [];
    for k := 0 to |ids|
      invariant |ds| == k && fresh(ds)
      invariant forall i :: 0 <= i < k ==>
        ds[i].Snapshot() == Drone(ids[i], positions(ids[i]), IdleStatus, None, None, Whole, true, true, 0)
      invariant forall i, j :: 0 <= i < j < k ==> ds[i] != ds[j]
    {
      var d := new DroneState(ids[k], positions(ids[k]));
      ds := ds + [d];
    }
  }
}
