/** Who holds what in a peer's view when it resolves claims. */
module ClaimSafety {
  import opened Basics
  import opened Sorting
  import opened Auction
  import opened Drones
  import opened Consensus
  import opened Rounds
  import opened ClaimLedger
  import opened ClaimRuns

  /** No two working drones the peer knows hold one cell, unless they are the halves of a split. */
  ghost predicate SafeView(drones: map<DroneId, Drone>) {
    forall a, b :: a in drones && b in drones && a != b && Active(drones[a]) && Active(drones[b]) ==>
      Apart(drones[a], drones[b])
  }

  /** With one assignment per drone, each drone ends with its own and nothing else. */
  lemma {:induction false} AssignAllAt(drones: map<DroneId, Drone>, assignments: seq<ZoneAssignment>, me: DroneId,
                                       id: DroneId)
    requires DistinctAssignees(assignments)
    ensures id in AssignAll(drones, assignments, me) <==> id in drones || Assigns(assignments, id)
    ensures !Assigns(assignments, id) ==> Known(AssignAll(drones, assignments, me), id) == Known(drones, id)
    ensures forall k :: 0 <= k < |assignments| && assignments[k].droneId == id ==>
      AssignAll(drones, assignments, me)[id] == AssignOne(drones, assignments[k], me)[id]
    decreases |assignments|
  {
    if assignments != [] {
      var front, last := assignments[..|assignments| - 1], assignments[|assignments| - 1];
      AssignAllAt(drones, front, me, id);
      assert Assigns(front, id) ==> Assigns(assignments, id);
      if last.droneId == id {
        assert Assigns(assignments, id) && !Assigns(front, id);
      } else if Assigns(assignments, id) {
        var k :| 0 <= k < |assignments| && assignments[k].droneId == id;
        assert front[k].droneId == id;
      }
    }
  }

  /** No working drone outside the contest holds the contested cell. */
  ghost predicate Free(drones: map<DroneId, Drone>, group: seq<ClaimRequest>)
    requires group != []
  {
    forall id :: id in drones && Active(drones[id]) && drones[id].claimed == Some(group[0].cell) ==>
      exists k :: 0 <= k < |group| && group[k].droneId == id
  }

  lemma SettledDrones(s: Ledger, group: seq<ClaimRequest>, view: MapView, me: DroneId, nowMs: int)
    requires Fresh(s) && group != []
    ensures ResolveConflict(group, view, Claimed(s.drones)).Some?
    ensures SettleOne(s, group, view, me, nowMs).drones
            == AssignAll(s.drones, ResolveConflict(group, view, Claimed(s.drones)).value.assignments, me)
    ensures Fresh(SettleOne(s, group, view, me, nowMs))
  {
    hide AssignAll, ResolveConflict, Evicted;
    ResolveShape(group, view, Claimed(s.drones));
  }

  lemma OldHolder(drones: map<DroneId, Drone>, id: DroneId)
    requires id in drones && Active(drones[id]) && drones[id].claimed.Some?
    ensures drones[id].claimed.value in Claimed(drones)
  {}

  lemma StaysApart(s: Ledger, group: seq<ClaimRequest>, view: MapView, me: DroneId, nowMs: int, a: DroneId, b: DroneId)
    requires Fresh(s) && SafeView(s.drones) && group != [] && DistinctDrones(group) && Free(s.drones, group)
    requires var t := SettleOne(s, group, view, me, nowMs);
      a in t.drones && b in t.drones && a != b && Active(t.drones[a]) && Active(t.drones[b])
    requires ResolveConflict(group, view, Claimed(s.drones)).Some?
    requires Assigns(ResolveConflict(group, view, Claimed(s.drones)).value.assignments, a)
    ensures Apart(SettleOne(s, group, view, me, nowMs).drones[a], SettleOne(s, group, view, me, nowMs).drones[b])
  {
    hide AssignAll, ResolveConflict, SettleOne, DistinctDrones, SafeView, Claimed, InGrid, Free, Fresh;
    SettledDrones(s, group, view, me, nowMs);
    AssignedApart(s.drones, group, view, me, a, b);
  }

  lemma AssignedApart(drones: map<DroneId, Drone>, group: seq<ClaimRequest>, view: MapView, me: DroneId, a: DroneId,
                      b: DroneId)
    requires SafeView(drones) && group != [] && DistinctDrones(group) && Free(drones, group) && a != b
    requires ResolveConflict(group, view, Claimed(drones)).Some?
    requires Assigns(ResolveConflict(group, view, Claimed(drones)).value.assignments, a)
    requires var t := AssignAll(drones, ResolveConflict(group, view, Claimed(drones)).value.assignments, me);
      a in t && b in t && Active(t[a]) && Active(t[b])
    ensures var t := AssignAll(drones, ResolveConflict(group, view, Claimed(drones)).value.assignments, me);
      Apart(t[a], t[b])
  {
    hide AssignAll, ResolveConflict, DistinctDrones, SafeView, Claimed, InGrid;
    var claimed := Claimed(drones);
    AssigneesDistinct(group, view, claimed);
    AuctionOutcome(group, view, claimed);
    AssignsClaimants(group, view, claimed, b);
    var assignments := ResolveConflict(group, view, claimed).value.assignments;
    AssignAllAt(drones, assignments, me, a);
    AssignAllAt(drones, assignments, me, b);
    var i :| 0 <= i < |assignments| && assignments[i].droneId == a;
    if Assigns(assignments, b) {
      var j :| 0 <= j < |assignments| && assignments[j].droneId == b;
    } else if drones[b].claimed.Some? {
      OldHolder(drones, b);
    }
  }

  lemma StaysSafe(s: Ledger, group: seq<ClaimRequest>, view: MapView, me: DroneId, nowMs: int)
    requires Fresh(s) && SafeView(s.drones) && group != [] && DistinctDrones(group) && Free(s.drones, group)
    ensures SafeView(SettleOne(s, group, view, me, nowMs).drones)
  {
    hide AssignAll, ResolveConflict, SettleOne, DistinctDrones, Apart, Free;
    var claimed := Claimed(s.drones);
    SettledDrones(s, group, view, me, nowMs);
    AssigneesDistinct(group, view, claimed);
    var t := SettleOne(s, group, view, me, nowMs);
    var assignments := ResolveConflict(group, view, claimed).value.assignments;
    forall a, b | a in t.drones && b in t.drones && a != b && Active(t.drones[a]) && Active(t.drones[b])
      ensures Apart(t.drones[a], t.drones[b])
    {
      AssignAllAt(s.drones, assignments, me, a);
      AssignAllAt(s.drones, assignments, me, b);
      if Assigns(assignments, a) {
        StaysApart(s, group, view, me, nowMs, a, b);
      } else if Assigns(assignments, b) {
        StaysApart(s, group, view, me, nowMs, b, a);
        ApartBothWays(t.drones[b], t.drones[a]);
      }
    }
  }

  lemma ApartBothWays(a: Drone, b: Drone)
    ensures Apart(a, b) <==> Apart(b, a)
  {}

  /** Whoever leads a contest clashes with an outsider who holds the contested cell. */
  lemma LeadClashes(s: Ledger, group: seq<ClaimRequest>, view: MapView, me: DroneId, nowMs: int, id: DroneId)
      returns (holder: DroneId)
    requires Fresh(s) && group != [] && DistinctDrones(group)
    requires id in s.drones && Active(s.drones[id]) && s.drones[id].claimed == Some(group[0].cell)
    requires forall k :: 0 <= k < |group| ==> group[k].droneId != id
    requires forall k :: 0 <= k < |group| ==> Active(Known(s.drones, group[k].droneId))
    ensures exists k :: 0 <= k < |group| && group[k].droneId == holder
    ensures var t := SettleOne(s, group, view, me, nowMs);
      && id in t.drones && holder in t.drones && holder != id && t.drones[id] == s.drones[id]
      && Active(t.drones[id]) && Active(t.drones[holder]) && !Apart(t.drones[id], t.drones[holder])
  {
    hide AssignAll, ResolveConflict, SettleOne, DistinctDrones, Ranked, Fallbacks;
    var claimed := Claimed(s.drones);
    SettledDrones(s, group, view, me, nowMs);
    AssigneesDistinct(group, view, claimed);
    var t := SettleOne(s, group, view, me, nowMs);
    var assignments := ResolveConflict(group, view, claimed).value.assignments;
    AssignsClaimants(group, view, claimed, id);
    AssignAllAt(s.drones, assignments, me, id);
    var lead, heads, losers := DecisionShape(group, view, claimed);
    var n := if |lead| == 2 && s.drones[id].subzone == Right then 1 else 0;
    holder := lead[n].droneId;
    assert assignments[n].droneId == holder;
    AssignAllAt(s.drones, assignments, me, holder);
    AssignsClaimants(group, view, claimed, holder);
  }

  lemma Clashes(s: Ledger, group: seq<ClaimRequest>, view: MapView, me: DroneId, nowMs: int)
    requires Fresh(s) && group != [] && DistinctDrones(group) && !Free(s.drones, group)
    requires forall k :: 0 <= k < |group| ==> Active(Known(s.drones, group[k].droneId))
    ensures !SafeView(SettleOne(s, group, view, me, nowMs).drones)
  {
    hide SettleOne, DistinctDrones, Fresh, Apart;
    var id :| id in s.drones && Active(s.drones[id]) && s.drones[id].claimed == Some(group[0].cell)
              && forall k :: 0 <= k < |group| ==> group[k].droneId != id;
    var holder := LeadClashes(s, group, view, me, nowMs, id);
  }

  /** Resolving a contest among working drones keeps the view safe exactly when the contested cell is free. */
  lemma SettlingSafeExactly(s: Ledger, group: seq<ClaimRequest>, view: MapView, me: DroneId, nowMs: int)
    requires Fresh(s) && SafeView(s.drones) && group != [] && DistinctDrones(group)
    requires forall k :: 0 <= k < |group| ==> Active(Known(s.drones, group[k].droneId))
    ensures SafeView(SettleOne(s, group, view, me, nowMs).drones) <==> Free(s.drones, group)
  {
    hide *;
    if Free(s.drones, group) {
      StaysSafe(s, group, view, me, nowMs);
    } else {
      Clashes(s, group, view, me, nowMs);
    }
  }

  /** Every group of a pass finds its cell free when its turn comes. */
  ghost predicate AllFree(s: Ledger, groups: seq<seq<ClaimRequest>>, view: MapView, me: DroneId, nowMs: int) {
    forall g :: 0 <= g < |groups| ==>
      groups[g] != [] && DistinctDrones(groups[g]) && FreeAtTurn(s, groups, view, me, nowMs, g)
  }

  ghost predicate FreeAtTurn(s: Ledger, groups: seq<seq<ClaimRequest>>, view: MapView, me: DroneId, nowMs: int, g: nat)
    requires g < |groups| && groups[g] != []
  {
    Free(SettleAll(s, groups[..g], view, me, nowMs).drones, groups[g])
  }

  lemma {:induction false} PassKeepsSafe(s: Ledger, groups: seq<seq<ClaimRequest>>, view: MapView, me: DroneId,
                                         nowMs: int)
    requires Fresh(s) && SafeView(s.drones) && AllFree(s, groups, view, me, nowMs)
    ensures Fresh(SettleAll(s, groups, view, me, nowMs)) && SafeView(SettleAll(s, groups, view, me, nowMs).drones)
    decreases |groups|
  {
    hide SettleOne, Fresh, SafeView, Free, DistinctDrones;
    if groups != [] {
      var front, last := groups[..|groups| - 1], groups[|groups| - 1];
      forall g | 0 <= g < |front| ensures FreeAtTurn(s, front, view, me, nowMs, g) {
        assert FreeAtTurn(s, groups, view, me, nowMs, g);
        assert front[..g] == groups[..g];
      }
      PassKeepsSafe(s, front, view, me, nowMs);
      assert FreeAtTurn(s, groups, view, me, nowMs, |groups| - 1);
      StaysSafe(SettleAll(s, front, view, me, nowMs), last, view, me, nowMs);
      SettledDrones(SettleAll(s, front, view, me, nowMs), last, view, me, nowMs);
    }
  }

  // ----- exactly when a pass is safe -----

  ghost predicate Contests(s: Ledger, groups: seq<seq<ClaimRequest>>) {
    forall g :: 0 <= g < |groups| ==>
      groups[g] != [] && DistinctDrones(groups[g]) && WorkingClaimants(s.drones, groups[g])
  }

  ghost predicate WorkingClaimants(drones: map<DroneId, Drone>, group: seq<ClaimRequest>) {
    forall k :: 0 <= k < |group| ==> Active(Known(drones, group[k].droneId))
  }

  /** Resolving a contest changes nobody's presence, and nothing at all about drones outside it. */
  lemma SettleOneAt(s: Ledger, group: seq<ClaimRequest>, view: MapView, me: DroneId, nowMs: int, id: DroneId)
    requires Fresh(s) && group != [] && DistinctDrones(group)
    ensures Active(Known(SettleOne(s, group, view, me, nowMs).drones, id)) <==> Active(Known(s.drones, id))
    ensures (forall k :: 0 <= k < |group| ==> group[k].droneId != id) ==>
      && Known(SettleOne(s, group, view, me, nowMs).drones, id) == Known(s.drones, id)
      && (id in SettleOne(s, group, view, me, nowMs).drones <==> id in s.drones)
  {
    hide AssignAll, ResolveConflict, SettleOne, DistinctDrones;
    var claimed := Claimed(s.drones);
    SettledDrones(s, group, view, me, nowMs);
    AssigneesDistinct(group, view, claimed);
    AssignsClaimants(group, view, claimed, id);
    var assignments := ResolveConflict(group, view, claimed).value.assignments;
    AssignAllAt(s.drones, assignments, me, id);
    if Assigns(assignments, id) {
      var k :| 0 <= k < |assignments| && assignments[k].droneId == id;
      assert AssignAll(s.drones, assignments, me)[id] == AssignOne(s.drones, assignments[k], me)[id];
    }
  }

  lemma {:induction false} PassKeepsWorking(s: Ledger, groups: seq<seq<ClaimRequest>>, view: MapView, me: DroneId,
                                            nowMs: int, id: DroneId)
    requires Fresh(s) && forall g :: 0 <= g < |groups| ==> groups[g] != [] && DistinctDrones(groups[g])
    ensures Fresh(SettleAll(s, groups, view, me, nowMs))
    ensures Active(Known(SettleAll(s, groups, view, me, nowMs).drones, id)) <==> Active(Known(s.drones, id))
    decreases |groups|
  {
    hide SettleOne, Fresh, DistinctDrones, Known;
    if groups != [] {
      var front, last := groups[..|groups| - 1], groups[|groups| - 1];
      PassKeepsWorking(s, front, view, me, nowMs, id);
      SettledDrones(SettleAll(s, front, view, me, nowMs), last, view, me, nowMs);
      SettleOneAt(SettleAll(s, front, view, me, nowMs), last, view, me, nowMs, id);
    }
  }

  ghost predicate SafeAfter(s: Ledger, groups: seq<seq<ClaimRequest>>, view: MapView, me: DroneId, nowMs: int, n: nat)
    requires n <= |groups|
  {
    SafeView(SettleAll(s, groups[..n], view, me, nowMs).drones)
  }

  lemma TurnSafeExactly(s: Ledger, groups: seq<seq<ClaimRequest>>, view: MapView, me: DroneId, nowMs: int, g: nat)
    requires Fresh(s) && Contests(s, groups) && g < |groups| && SafeAfter(s, groups, view, me, nowMs, g)
    ensures SafeAfter(s, groups, view, me, nowMs, g + 1) <==> FreeAtTurn(s, groups, view, me, nowMs, g)
  {
    hide SettleOne, SafeView, Free, DistinctDrones, Known, Fresh;
    var front := groups[..g];
    var before := SettleAll(s, front, view, me, nowMs);
    assert groups[..g + 1][..g] == front && groups[..g + 1][g] == groups[g];
    assert SettleAll(s, groups[..g + 1], view, me, nowMs) == SettleOne(before, groups[g], view, me, nowMs);
    PassKeepsWorking(s, front, view, me, nowMs, 0);
    forall k | 0 <= k < |groups[g]| ensures Active(Known(before.drones, groups[g][k].droneId)) {
      PassKeepsWorking(s, front, view, me, nowMs, groups[g][k].droneId);
    }
    SettlingSafeExactly(before, groups[g], view, me, nowMs);
  }

  ghost predicate SafeThroughout(s: Ledger, groups: seq<seq<ClaimRequest>>, view: MapView, me: DroneId, nowMs: int) {
    forall n :: 0 <= n <= |groups| ==> SafeAfter(s, groups, view, me, nowMs, n)
  }

  lemma SafeAtFirst(s: Ledger, groups: seq<seq<ClaimRequest>>, view: MapView, me: DroneId, nowMs: int)
    ensures SafeAfter(s, groups, view, me, nowMs, 0) <==> SafeView(s.drones)
  {
    assert groups[..0] == [];
  }

  lemma SafeIsFree(s: Ledger, groups: seq<seq<ClaimRequest>>, view: MapView, me: DroneId, nowMs: int)
    requires Fresh(s) && Contests(s, groups) && SafeThroughout(s, groups, view, me, nowMs)
    ensures AllFree(s, groups, view, me, nowMs)
  {
    hide DistinctDrones, FreeAtTurn, Fresh, SafeAfter, WorkingClaimants;
    forall g | 0 <= g < |groups| ensures FreeAtTurn(s, groups, view, me, nowMs, g) {
      assert SafeAfter(s, groups, view, me, nowMs, g + 1);
      TurnSafeExactly(s, groups, view, me, nowMs, g);
    }
  }

  lemma FreeIsSafe(s: Ledger, groups: seq<seq<ClaimRequest>>, view: MapView, me: DroneId, nowMs: int, n: nat)
    requires Fresh(s) && Contests(s, groups) && SafeView(s.drones) && AllFree(s, groups, view, me, nowMs)
    requires n <= |groups|
    ensures SafeAfter(s, groups, view, me, nowMs, n)
  {
    hide DistinctDrones, FreeAtTurn, Fresh, SafeAfter, WorkingClaimants, SafeView;
    if n == 0 {
      SafeAtFirst(s, groups, view, me, nowMs);
    } else {
      FreeIsSafe(s, groups, view, me, nowMs, n - 1);
      TurnSafeExactly(s, groups, view, me, nowMs, n - 1);
    }
  }

  /** Resolving the contests of a pass one by one leaves the view safe after each of them exactly when the
      view is safe at first and every contest finds its cell free. */
  lemma PassSafeExactly(s: Ledger, groups: seq<seq<ClaimRequest>>, view: MapView, me: DroneId, nowMs: int)
    requires Fresh(s) && Contests(s, groups)
    ensures SafeThroughout(s, groups, view, me, nowMs) <==> SafeView(s.drones) && AllFree(s, groups, view, me, nowMs)
  {
    hide Contests, AllFree, Fresh, SafeAfter, SafeView;
    SafeAtFirst(s, groups, view, me, nowMs);
    if SafeThroughout(s, groups, view, me, nowMs) {
      assert SafeAfter(s, groups, view, me, nowMs, 0);
      SafeIsFree(s, groups, view, me, nowMs);
    } else if SafeView(s.drones) && AllFree(s, groups, view, me, nowMs) {
      forall n | 0 <= n <= |groups| ensures SafeAfter(s, groups, view, me, nowMs, n) {
        FreeIsSafe(s, groups, view, me, nowMs, n);
      }
    }
  }

  // ----- what can be told before a pass -----

  /** Nobody loses the contest: one claim, or two that tie. */
  predicate NoLosers(group: seq<ClaimRequest>)
    requires group != []
  {
    |group| == 1 || (|group| == 2 && Ties(Ranked(group)[0], Ranked(group)[1], group[0].cell))
  }

  /** The contests of a pass as they come: about different cells, and no drone in two of them. */
  ghost predicate Separate(groups: seq<seq<ClaimRequest>>) {
    && (forall g, h :: 0 <= g < h < |groups| && groups[g] != [] && groups[h] != [] ==>
      groups[g][0].cell != groups[h][0].cell)
    && (forall g, h, k, m :: 0 <= g < h < |groups| && 0 <= k < |groups[g]| && 0 <= m < |groups[h]| ==>
          groups[g][k].droneId != groups[h][m].droneId)
  }

  /** Every contested cell is free at first. */
  ghost predicate FreeAtStart(drones: map<DroneId, Drone>, groups: seq<seq<ClaimRequest>>) {
    forall g :: 0 <= g < |groups| ==> groups[g] != [] && Free(drones, groups[g])
  }

  /** Whenever a contest has losers, the cells of all later contests are held already, so no loser can be
      sent to one. */
  ghost predicate LosersHarmless(drones: map<DroneId, Drone>, groups: seq<seq<ClaimRequest>>) {
    forall g, h :: 0 <= g < h < |groups| && groups[g] != [] && groups[h] != [] && !NoLosers(groups[g]) ==>
      groups[h][0].cell in Claimed(drones)
  }

  lemma WithoutLosers(group: seq<ClaimRequest>, view: MapView, claimed: set<Coord>)
    requires group != [] && NoLosers(group)
    ensures ResolveConflict(group, view, claimed).Some?
    ensures forall i :: 0 <= i < |ResolveConflict(group, view, claimed).value.assignments| ==>
      ResolveConflict(group, view, claimed).value.assignments[i].cell == group[0].cell
  {
    hide Sort, Ties;
    assert |group| == 2 ==> Ranked(group)[2..] == [];
  }

  /** The best of the losers is offered its best cell outside the claimed ones and the contested one. */
  lemma FirstLoser(group: seq<ClaimRequest>, view: MapView, claimed: set<Coord>) returns (loser: ClaimRequest)
    requires group != [] && !NoLosers(group)
    ensures ResolveConflict(group, view, claimed).Some? && loser in group
    ensures var assignments := ResolveConflict(group, view, claimed).value.assignments;
      FallbackFor(loser, view, claimed + {group[0].cell}) in assignments
  {
    hide Sort, Ties, FallbackFor;
    var ranked, cell := Ranked(group), group[0].cell;
    SameElements(group, ranked);
    var n := if Ties(ranked[0], ranked[1], cell) then 2 else 1;
    loser := ranked[n];
    assert ranked[n..][0] == loser && loser in ranked;
    var rest := Fallbacks(ranked[n..], view, claimed + {cell});
    assert rest[0] == FallbackFor(loser, view, claimed + {cell});
    assert rest[0] in rest;
  }

  /** A claimant that ends with another cell than the contested one lost the contest, and got a cell nobody held. */
  lemma NewHolder(s: Ledger, group: seq<ClaimRequest>, view: MapView, me: DroneId, nowMs: int, id: DroneId, c: Coord)
    requires Fresh(s) && group != [] && DistinctDrones(group) && c != group[0].cell
    requires exists k :: 0 <= k < |group| && group[k].droneId == id
    requires Known(SettleOne(s, group, view, me, nowMs).drones, id).claimed == Some(c)
    ensures !NoLosers(group) && c !in Claimed(s.drones)
  {
    hide AssignAll, ResolveConflict, SettleOne, DistinctDrones, Claimed, NoLosers, InGrid;
    var claimed := Claimed(s.drones);
    SettledDrones(s, group, view, me, nowMs);
    AssigneesDistinct(group, view, claimed);
    AuctionOutcome(group, view, claimed);
    AssignsClaimants(group, view, claimed, id);
    var assignments := ResolveConflict(group, view, claimed).value.assignments;
    AssignAllAt(s.drones, assignments, me, id);
    var k :| 0 <= k < |assignments| && assignments[k].droneId == id;
    if NoLosers(group) {
      WithoutLosers(group, view, claimed);
    }
  }

  ghost predicate Ready(s: Ledger, groups: seq<seq<ClaimRequest>>, size: nat) {
    && Fresh(s) && SafeView(s.drones) && Contests(s, groups) && Separate(groups) && FreeAtStart(s.drones, groups)
    && forall g :: 0 <= g < |groups| ==> groups[g] != [] && InGrid(groups[g][0].cell, size)
  }

  ghost function At(s: Ledger, groups: seq<seq<ClaimRequest>>, view: MapView, me: DroneId, nowMs: int,
                    n: nat): (t: Ledger)
    requires n <= |groups|
  {
    SettleAll(s, groups[..n], view, me, nowMs)
  }

  lemma AtNext(s: Ledger, groups: seq<seq<ClaimRequest>>, view: MapView, me: DroneId, nowMs: int, n: nat)
    requires n < |groups| && Fresh(s)
    requires forall g :: 0 <= g < |groups| ==> groups[g] != [] && DistinctDrones(groups[g])
    ensures At(s, groups, view, me, nowMs, n + 1)
        == SettleOne(At(s, groups, view, me, nowMs, n), groups[n], view, me, nowMs)
    ensures At(s, groups, view, me, nowMs, 0) == s && Fresh(At(s, groups, view, me, nowMs, n))
  {
    hide SettleOne, Fresh, DistinctDrones;
    assert groups[..n + 1][..n] == groups[..n] && groups[..n + 1][n] == groups[n] && groups[..0] == [];
    PassKeepsWorking(s, groups[..n], view, me, nowMs, 0);
  }

  lemma AtStart(s: Ledger, groups: seq<seq<ClaimRequest>>, view: MapView, me: DroneId, nowMs: int)
    ensures At(s, groups, view, me, nowMs, 0) == s
  {
    assert groups[..0] == [];
  }

  ghost predicate Claimant(group: seq<ClaimRequest>, id: DroneId) {
    exists k :: 0 <= k < |group| && group[k].droneId == id
  }

  lemma Separated(groups: seq<seq<ClaimRequest>>, g: nat, h: nat, id: DroneId)
    requires Separate(groups) && g < h < |groups| && groups[g] != [] && groups[h] != []
    ensures groups[g][0].cell != groups[h][0].cell && !(Claimant(groups[g], id) && Claimant(groups[h], id))
  {}

  lemma ClaimedBy(drones: map<DroneId, Drone>, c: Coord) returns (id: DroneId)
    requires c in Claimed(drones)
    ensures id in drones && Active(drones[id]) && drones[id].claimed == Some(c)
  {
    id :| id in drones && Active(drones[id]) && drones[id].claimed == Some(c);
  }

  /** Before its turn no harmless pass takes a cell away from a contest, or frees one that is held. */
  lemma {:induction false} StaysFree(s: Ledger, groups: seq<seq<ClaimRequest>>, size: nat, view: MapView, me: DroneId,
                                     nowMs: int, n: nat, h: nat)
    requires Ready(s, groups, size) && LosersHarmless(s.drones, groups) && n <= h < |groups|
    ensures Free(At(s, groups, view, me, nowMs, n).drones, groups[h])
    ensures groups[h][0].cell in Claimed(s.drones) ==>
      groups[h][0].cell in Claimed(At(s, groups, view, me, nowMs, n).drones)
  {
    hide SettleOne, SafeView, DistinctDrones, Fresh, WorkingClaimants, At, NoLosers, Separate, Claimed, Known, InGrid;
    if n == 0 {
      AtStart(s, groups, view, me, nowMs);
    } else {
      StaysFree(s, groups, size, view, me, nowMs, n - 1, h);
      AtNext(s, groups, view, me, nowMs, n - 1);
      var before, group, c := At(s, groups, view, me, nowMs, n - 1), groups[n - 1], groups[h][0].cell;
      FreeOneMore(s, before, groups, view, me, nowMs, n - 1, h);
    }
  }

  lemma FreeOneMore(s: Ledger, before: Ledger, groups: seq<seq<ClaimRequest>>, view: MapView, me: DroneId, nowMs: int,
                    n: nat, h: nat)
    requires n < h < |groups| && Fresh(before) && Separate(groups) && LosersHarmless(s.drones, groups)
    requires groups[n] != [] && groups[h] != [] && DistinctDrones(groups[n]) && Free(before.drones, groups[h])
    requires groups[h][0].cell in Claimed(s.drones) ==> groups[h][0].cell in Claimed(before.drones)
    ensures var after := SettleOne(before, groups[n], view, me, nowMs);
      && Free(after.drones, groups[h])
      && (groups[h][0].cell in Claimed(s.drones) ==> groups[h][0].cell in Claimed(after.drones))
  {
    hide SettleOne, DistinctDrones, Fresh, NoLosers, Separate, Claimed;
    var after, c := SettleOne(before, groups[n], view, me, nowMs), groups[h][0].cell;
    forall id | id in after.drones && Active(after.drones[id]) && after.drones[id].claimed == Some(c)
      ensures Claimant(groups[h], id)
    {
      Separated(groups, n, h, id);
      if Claimant(groups[n], id) {
        NewHolder(before, groups[n], view, me, nowMs, id, c);
      } else {
        SettleOneAt(before, groups[n], view, me, nowMs, id);
      }
    }
    if c in Claimed(s.drones) {
      var id := ClaimedBy(before.drones, c);
      Separated(groups, n, h, id);
      SettleOneAt(before, groups[n], view, me, nowMs, id);
      OldHolder(after.drones, id);
    }
  }

  /** While no contest has losers, no cell but the contested ones becomes held. */
  lemma {:induction false} NothingElseClaimed(s: Ledger, groups: seq<seq<ClaimRequest>>, size: nat, view: MapView,
                                              me: DroneId, nowMs: int, n: nat, c: Coord)
    requires Ready(s, groups, size) && n <= |groups| && c !in Claimed(s.drones)
    requires forall g :: 0 <= g < n ==> groups[g] != [] && NoLosers(groups[g]) && groups[g][0].cell != c
    ensures c !in Claimed(At(s, groups, view, me, nowMs, n).drones)
  {
    hide SettleOne, SafeView, DistinctDrones, Fresh, WorkingClaimants, At, NoLosers, Separate, Claimed, Free, InGrid;
    if n == 0 {
      AtStart(s, groups, view, me, nowMs);
    } else {
      NothingElseClaimed(s, groups, size, view, me, nowMs, n - 1, c);
      AtNext(s, groups, view, me, nowMs, n - 1);
      var before, after := At(s, groups, view, me, nowMs, n - 1), At(s, groups, view, me, nowMs, n);
      if c in Claimed(after.drones) {
        var id := ClaimedBy(after.drones, c);
        if Claimant(groups[n - 1], id) {
          NewHolder(before, groups[n - 1], view, me, nowMs, id, c);
        } else {
          SettleOneAt(before, groups[n - 1], view, me, nowMs, id);
          OldHolder(before.drones, id);
        }
      }
    }
  }

  lemma {:induction false} Untouched(s: Ledger, groups: seq<seq<ClaimRequest>>, view: MapView, me: DroneId, nowMs: int,
                                     m: nat, n: nat, id: DroneId)
    requires m <= n <= |groups| && Fresh(s)
    requires forall g :: 0 <= g < |groups| ==> groups[g] != [] && DistinctDrones(groups[g])
    requires forall g :: m <= g < n ==> !Claimant(groups[g], id)
    ensures Known(At(s, groups, view, me, nowMs, n).drones, id) == Known(At(s, groups, view, me, nowMs, m).drones, id)
    ensures id in At(s, groups, view, me, nowMs, n).drones <==> id in At(s, groups, view, me, nowMs, m).drones
    decreases n
  {
    hide SettleOne, DistinctDrones, Fresh, At, Known;
    if m < n {
      Untouched(s, groups, view, me, nowMs, m, n - 1, id);
      AtNext(s, groups, view, me, nowMs, n - 1);
      SettleOneAt(At(s, groups, view, me, nowMs, n - 1), groups[n - 1], view, me, nowMs, id);
    }
  }

  /** A map on which one cell is more uncertain than all others. */
  function Peak(size: nat, c: Coord): MapView {
    MapView(size, x => if x == c then 1.0 else 0.0)
  }

  /** On such a map the first loser goes to that cell, if nobody holds it. */
  lemma LoserTakesPeak(s: Ledger, group: seq<ClaimRequest>, size: nat, me: DroneId, nowMs: int, c: Coord)
      returns (loser: DroneId)
    requires Fresh(s) && group != [] && DistinctDrones(group) && !NoLosers(group) && InGrid(c, size)
    requires c != group[0].cell && c !in Claimed(s.drones) && WorkingClaimants(s.drones, group)
    ensures Claimant(group, loser)
    ensures var t := SettleOne(s, group, Peak(size, c), me, nowMs);
      loser in t.drones && Active(t.drones[loser]) && t.drones[loser].claimed == Some(c)
  {
    hide AssignAll, ResolveConflict, SettleOne, DistinctDrones, SelectNextZone, NoLosers, Claimed, DistSquared;
    var claimed, view := Claimed(s.drones), Peak(size, c);
    var claim := FirstLoser(group, view, claimed);
    loser := claim.droneId;
    SelectionIsBest(view, claimed + {group[0].cell}, claim.position, false, c);
    var a := FallbackFor(claim, view, claimed + {group[0].cell});
    SettledDrones(s, group, view, me, nowMs);
    AssigneesDistinct(group, view, claimed);
    var assignments := ResolveConflict(group, view, claimed).value.assignments;
    var k :| 0 <= k < |assignments| && assignments[k] == a;
    AssignAllAt(s.drones, assignments, me, loser);
  }

  /** A pass in which a loser can be sent to a later contest's cell ends unsafe on some map. */
  lemma LoserSpoils(s: Ledger, groups: seq<seq<ClaimRequest>>, size: nat, me: DroneId, nowMs: int, g: nat, h: nat)
    requires Ready(s, groups, size) && g < h < |groups| && groups[h][0].cell !in Claimed(s.drones)
    requires !NoLosers(groups[g]) && forall j :: 0 <= j < g ==> NoLosers(groups[j])
    ensures !SafeView(SettleAll(s, groups, Peak(size, groups[h][0].cell), me, nowMs).drones)
  {
    hide SettleOne, SafeView, DistinctDrones, Fresh, At, NoLosers, Claimed, Free, Peak, Separate, Known;
    var c := groups[h][0].cell;
    var view := Peak(size, c);
    forall j | 0 <= j < h ensures groups[j][0].cell != c {
      Separated(groups, j, h, 0);
    }
    NothingElseClaimed(s, groups, size, view, me, nowMs, g, c);
    AtNext(s, groups, view, me, nowMs, g);
    WorkersAt(s, groups, size, view, me, nowMs, g);
    var loser := LoserTakesPeak(At(s, groups, view, me, nowMs, g), groups[g], size, me, nowMs, c);
    LoserClashes(s, groups, size, view, me, nowMs, g, h, loser);
  }

  lemma WorkersAt(s: Ledger, groups: seq<seq<ClaimRequest>>, size: nat, view: MapView, me: DroneId, nowMs: int, n: nat)
    requires Ready(s, groups, size) && n < |groups|
    ensures WorkingClaimants(At(s, groups, view, me, nowMs, n).drones, groups[n])
  {
    hide SettleOne, SafeView, DistinctDrones, Fresh, Free, Separate, Known, SettleAll;
    assert WorkingClaimants(s.drones, groups[n]);
    forall k | 0 <= k < |groups[n]|
      ensures Active(Known(At(s, groups, view, me, nowMs, n).drones, groups[n][k].droneId))
    {
      PassKeepsWorking(s, groups[..n], view, me, nowMs, groups[n][k].droneId);
    }
  }

  lemma LoserClashes(s: Ledger, groups: seq<seq<ClaimRequest>>, size: nat, view: MapView, me: DroneId, nowMs: int,
                     g: nat, h: nat, loser: DroneId)
    requires Ready(s, groups, size) && g < h < |groups| && Claimant(groups[g], loser)
    requires var t := At(s, groups, view, me, nowMs, g + 1);
      loser in t.drones && Active(t.drones[loser]) && t.drones[loser].claimed == Some(groups[h][0].cell)
    ensures !SafeView(SettleAll(s, groups, view, me, nowMs).drones)
  {
    hide SettleOne, DistinctDrones, Fresh, At, Claimed, Free, Separate, Apart, Claimant;
    forall j | g < j < |groups| ensures !Claimant(groups[j], loser) {
      Separated(groups, g, j, loser);
    }
    Untouched(s, groups, view, me, nowMs, g + 1, h, loser);
    AtNext(s, groups, view, me, nowMs, h);
    WorkersAt(s, groups, size, view, me, nowMs, h);
    NotClaimant(groups[h], loser);
    var holder := LeadClashes(At(s, groups, view, me, nowMs, h), groups[h], view, me, nowMs, loser);
    IsClaimant(groups[h], holder);
    forall j | h < j < |groups| ensures !Claimant(groups[j], holder) {
      Separated(groups, h, j, holder);
    }
    Untouched(s, groups, view, me, nowMs, h + 1, |groups|, loser);
    Untouched(s, groups, view, me, nowMs, h + 1, |groups|, holder);
    WholePass(s, groups, view, me, nowMs);
  }

  lemma NotClaimant(group: seq<ClaimRequest>, id: DroneId)
    requires !Claimant(group, id)
    ensures forall k :: 0 <= k < |group| ==> group[k].droneId != id
  {}

  lemma IsClaimant(group: seq<ClaimRequest>, id: DroneId)
    requires exists k :: 0 <= k < |group| && group[k].droneId == id
    ensures Claimant(group, id)
  {}

  lemma WholePass(s: Ledger, groups: seq<seq<ClaimRequest>>, view: MapView, me: DroneId, nowMs: int)
    ensures At(s, groups, view, me, nowMs, |groups|) == SettleAll(s, groups, view, me, nowMs)
  {
    assert groups[..|groups|] == groups;
  }

  lemma FirstWithLosers(groups: seq<seq<ClaimRequest>>, g: nat) returns (first: nat)
    requires g < |groups| && (forall j :: 0 <= j < |groups| ==> groups[j] != []) && !NoLosers(groups[g])
    ensures first <= g && !NoLosers(groups[first]) && forall j :: 0 <= j < first ==> NoLosers(groups[j])
  {
    hide NoLosers;
    first := 0;
    while NoLosers(groups[first])
      invariant first <= g && forall j :: 0 <= j < first ==> NoLosers(groups[j])
      decreases g - first
    {
      first := first + 1;
    }
  }

  /** What can be told before a pass whose contests are separate and find their cells free: it leaves the
      view safe, whatever the map says, exactly when every contest with losers comes after all contests for
      cells that nobody holds yet. */
  lemma PassSafeOnAllMaps(s: Ledger, groups: seq<seq<ClaimRequest>>, size: nat, me: DroneId, nowMs: int)
    requires Ready(s, groups, size)
    ensures (forall view: MapView :: view.size == size ==> SafeView(SettleAll(s, groups, view, me, nowMs).drones))
            <==> LosersHarmless(s.drones, groups)
  {
    hide SettleAll, SafeView, DistinctDrones, Fresh, NoLosers, Claimed, Free, Separate, InGrid;
    if LosersHarmless(s.drones, groups) {
      forall view: MapView | view.size == size ensures SafeView(SettleAll(s, groups, view, me, nowMs).drones) {
        HarmlessPass(s, groups, size, view, me, nowMs);
      }
    } else {
      var g, h :| 0 <= g < h < |groups| && !NoLosers(groups[g]) && groups[h][0].cell !in Claimed(s.drones);
      var first := FirstWithLosers(groups, g);
      LoserSpoils(s, groups, size, me, nowMs, first, h);
      assert Peak(size, groups[h][0].cell).size == size;
    }
  }

  lemma HarmlessPass(s: Ledger, groups: seq<seq<ClaimRequest>>, size: nat, view: MapView, me: DroneId, nowMs: int)
    requires Ready(s, groups, size) && LosersHarmless(s.drones, groups)
    ensures SafeView(SettleAll(s, groups, view, me, nowMs).drones)
  {
    hide SettleAll, SafeView, DistinctDrones, Fresh, Claimed, Free, Separate, InGrid, LosersHarmless, FreeAtStart,
         WorkingClaimants;
    forall g | 0 <= g < |groups| ensures FreeAtTurn(s, groups, view, me, nowMs, g) {
      StaysFree(s, groups, size, view, me, nowMs, g, g);
    }
    PassKeepsSafe(s, groups, view, me, nowMs);
  }
}
