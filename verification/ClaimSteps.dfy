/** What single events do to a peer's claims, drones and rounds, entry by entry. */
module ClaimSteps {
  import opened Basics
  import opened Auction
  import opened Drones
  import opened Consensus
  import opened Heartbeats
  import opened ClaimLedger

  // ----- claims -----

  /** A claim on file can be found by its id, by its time, and as the last one under its cell. */
  lemma ClaimFiled(x: Index, claim: ClaimRequest)
    ensures var y := Filed(x, claim);
      && y.pending == x.pending[claim.claimId := claim]
      && y.timestamps == x.timestamps[claim.claimId := claim.timestampMs]
      && claim.cell in y.byCell && |y.byCell[claim.cell]| > 0
      && y.byCell[claim.cell][|y.byCell[claim.cell]| - 1] == claim.claimId
      && (claim.cell in x.byCell ==> x.byCell[claim.cell] < y.byCell[claim.cell])
      && forall cell :: cell != claim.cell ==>
           (cell in y.byCell <==> cell in x.byCell) && (cell in x.byCell ==> y.byCell[cell] == x.byCell[cell])
  {}

  /** An eviction takes away exactly the claims listed under the cell, and the list. */
  lemma EvictedExactly(x: Index, cell: Coord, id: ClaimId)
    ensures var y := Evicted(x, cell);
      && (id in y.pending <==> id in x.pending && !(cell in x.byCell && id in x.byCell[cell]))
      && (id in y.pending ==> y.pending[id] == x.pending[id])
      && y.byCell == x.byCell - {cell}
  {}

  /** An id taken off a list loses its first mention; everything else keeps its place. */
  lemma {:induction false} FirstMentionGoes(front: seq<ClaimId>, id: ClaimId, rest: seq<ClaimId>)
    requires id !in front
    ensures Unlisted(front + [id] + rest, {id}) == front + rest
    ensures Unlisted(front, {id}) == front
    decreases |front|
  {
    var all := front + [id] + rest;
    if front == [] {
      assert all == [id] + rest;
      assert {id} - {id} == {};
      Untouched(rest);
    } else {
      FirstMentionGoes(front[1..], id, rest);
      assert all[1..] == front[1..] + [id] + rest;
      assert front + rest == [front[0]] + (front[1..] + rest);
    }
  }

  lemma {:induction false} Untouched(ids: seq<ClaimId>)
    ensures Unlisted(ids, {}) == ids
    decreases |ids|
  {
    if ids != [] {
      Untouched(ids[1..]);
    }
  }

  /** A claim is dropped by age when more than two delays have passed since its time, and goes to
      resolution when at least one has and it is not resolved. */
  lemma DueExactly(s: Ledger, delayMs: int, nowMs: int, id: ClaimId)
    requires Agree(s.index) && id in s.index.pending
    ensures id in Expired(s.index, delayMs, nowMs) <==> nowMs > s.index.pending[id].timestampMs + delayMs + delayMs
    ensures s.index.pending[id] in Mature(s, delayMs, nowMs)
            <==> nowMs - s.index.pending[id].timestampMs >= delayMs && id !in s.resolved
  {
    var claim := s.index.pending[id];
    if claim in Mature(s, delayMs, nowMs) {
      var other :| other in s.index.pending && s.index.pending[other] == claim && claim.claimId !in s.resolved;
    }
  }

  /** The final sweep leaves the claims that are not resolved, and at most 500 entries in each memory. */
  lemma SweptExactly(s: Ledger, id: ClaimId)
    ensures id in Swept(s).index.pending <==> id in s.index.pending && id !in s.resolved
    ensures id in Swept(s).index.pending ==> Swept(s).index.pending[id] == s.index.pending[id]
    ensures Swept(s).processed <= s.processed && Swept(s).resolved <= s.resolved
    ensures |s.processed| <= 500 ==> Swept(s).processed == s.processed
    ensures |s.resolved| <= 500 ==> Swept(s).resolved == s.resolved
    ensures |s.processed| > 500 ==> |Swept(s).processed| == 500
    ensures |s.resolved| > 500 ==> |Swept(s).resolved| == 500
  {}

  // ----- rounds -----

  /** A drone named for a cell heads for it or searches it; the peer's own drone shows that it won. */
  lemma AssignedByRound(drones: map<DroneId, Drone>, a: ZoneAssignment, me: DroneId)
    ensures var now, past := AssignOne(drones, a, me), Known(drones, a.droneId);
      && now.Keys == drones.Keys + {a.droneId}
      && (forall id :: id in drones && id != a.droneId ==> now[id] == drones[id])
      && var d := now[a.droneId];
      && d.id == past.id && d.position == past.position && d.alive == past.alive && d.reachable == past.reachable
      && d.searchedCells == past.searchedCells
      && (a.reason == Idle ==>
            && d.target.None? && d.claimed.None? && d.subzone == Whole
            && (d.alive ==> d.status == IdleStatus) && (!d.alive ==> d.status == StaleStatus))
      && (a.reason != Idle ==>
            && d.target == Some(a.cell) && d.claimed == Some(a.cell) && d.subzone == a.subzone
            && (a.droneId == me ==> d.status == ClaimWon)
            && (a.droneId != me && d.position == a.cell ==> d.status == Searching)
            && (a.droneId != me && d.position != a.cell ==> d.status == Transiting))
  {}

  /** What is known of a drone heard of for the first time. */
  lemma FirstHeardOf(drones: map<DroneId, Drone>, id: DroneId)
    requires id !in drones
    ensures var d := Known(drones, id);
      && d.id == id && d.position.x == 0 && d.position.y == 0 && d.alive && d.reachable
      && d.status == IdleStatus && d.target.None? && d.claimed.None? && d.subzone == Whole && d.searchedCells == 0
  {}

  /** The cells counted as claimed are those of the drones that work. */
  lemma ClaimedExactly(drones: map<DroneId, Drone>, cell: Coord)
    ensures cell in Claimed(drones) <==>
      exists id :: id in drones && drones[id].alive && drones[id].reachable && drones[id].claimed == Some(cell)
  {
    if cell in Claimed(drones) {
      var id :| id in drones && Active(drones[id]) && drones[id].claimed == Some(cell);
    }
    if id :| id in drones && drones[id].alive && drones[id].reachable && drones[id].claimed == Some(cell) {
      assert Active(drones[id]);
    }
  }

  /** A new round counts once: its number is remembered and reached, contests of several count as auctions,
      pending claims for its cell go, and a released drone is off the mesh. */
  lemma NewRoundApplied(s: Ledger, round: RoundPayload, me: DroneId, nowMs: int)
    requires round.id !in s.processed
    ensures var r := ApplyRound(s, round, me, nowMs);
      && r.processed == s.processed + {round.id}
      && r.roundId >= s.roundId && r.roundId >= round.id && (r.roundId == s.roundId || r.roundId == round.id)
      && (|round.assignments| <= 1 ==> r.auctions == s.auctions)
      && (|round.assignments| >= 2 ==> r.auctions == s.auctions + 1)
      && r.index == Evicted(s.index, round.cell)
      && r.resolved == s.resolved && r.released == s.released && r.heard == s.heard && r.silent == s.silent
      && r.outbox == s.outbox
      && (round.releasedBy.None? ==> r.staleSince == s.staleSince)
      && (round.releasedBy.Some? ==> r.staleSince == s.staleSince[round.releasedBy.value := nowMs])
    ensures round.releasedBy.None? && round.assignments == [] ==> ApplyRound(s, round, me, nowMs).drones == s.drones
    ensures round.releasedBy.Some? && round.assignments == [] ==>
      var now, id := ApplyRound(s, round, me, nowMs).drones, round.releasedBy.value;
      && now.Keys == s.drones.Keys + {id}
      && (forall other :: other in s.drones && other != id ==> now[other] == s.drones[other])
      && var d := now[id];
      && !d.alive && !d.reachable && d.target.None? && d.claimed.None? && d.subzone == Whole
      && d.status == StaleStatus && d.position == Known(s.drones, id).position
  {}

  /** A contest that is settled is published under the next number, and its claims count as resolved. */
  lemma ContestPublished(s: Ledger, group: seq<ClaimRequest>, view: MapView, me: DroneId, nowMs: int)
    requires group != []
    ensures ResolveConflict(group, view, Claimed(s.drones)).Some?
    ensures var r := SettleOne(s, group, view, me, nowMs);
      && |r.outbox| == |s.outbox| + 1 && r.outbox[..|s.outbox|] == s.outbox
      && var round := r.outbox[|s.outbox|];
      && round.id == s.roundId + 1 && round.cell == group[0].cell && round.releasedBy.None?
      && round.assignments == ResolveConflict(group, view, Claimed(s.drones)).value.assignments
      && (forall id :: id in r.resolved <==> id in s.resolved || exists k :: 0 <= k < |group| && group[k].claimId == id)
  {
    hide Evicted, AssignAll, ResolveConflict;
    ResolveShape(group, view, Claimed(s.drones));
  }

  /** One silent drone: off the mesh since now, and released by a round of its own the first time. */
  lemma SilentDroneReleased(s: Ledger, id: DroneId, me: DroneId, nowMs: int)
    requires id != me && Known(s.drones, id).alive
    ensures var r, past := SilenceOne(s, id, me, nowMs), Known(s.drones, id);
      && id in r.drones && !r.drones[id].alive && !r.drones[id].reachable && r.drones[id].target.None?
      && r.drones[id].claimed.None? && r.drones[id].position == past.position
      && id in r.staleSince && r.staleSince[id] == nowMs
      && (id !in s.released && past.claimed.Some? ==>
            && r.outbox == s.outbox + [RoundPayload(s.roundId + 1, past.claimed.value, [], Some(id))]
            && r.released == s.released + {id})
      && (id in s.released || past.claimed.None? ==> r.outbox == s.outbox && r.released == s.released)
  {
    hide Evicted;
  }

  lemma NobodyReleased(s: Ledger, id: DroneId, me: DroneId, nowMs: int)
    requires id == me || !Known(s.drones, id).alive
    ensures var r := SilenceOne(s, id, me, nowMs);
      && r.outbox == s.outbox && r.released == s.released && r.staleSince == s.staleSince && r.roundId == s.roundId
      && forall d :: d in s.drones ==> d in r.drones && r.drones[d] == s.drones[d]
  {}

  // ----- who is heard -----

  /** A beat, a rejoin and a peer's own account bring it back on record; a survey only finds who is late. */
  lemma HeardInWords(s: Ledger, id: DroneId, position: Coord, timestampMs: int, me: DroneId)
    ensures var r, past := After(s, BeatHeard(id, position, timestampMs), me), Known(s.drones, id);
      && id in r.heard && r.heard[id] == timestampMs && id !in r.silent && id !in r.staleSince
      && id in r.drones && r.drones[id].alive && r.drones[id].reachable && r.drones[id].position == position
      && r.drones[id].target == past.target && r.drones[id].claimed == past.claimed
      && (forall d :: d != id ==> (d in r.silent <==> d in s.silent))
      && (forall d :: d in s.drones && d != id ==> d in r.drones && r.drones[d] == s.drones[d])
      && r.outbox == s.outbox && r.index == s.index && r.released == s.released
    ensures var r, past := After(s, Rejoined(id, timestampMs), me), Known(s.drones, id);
      && id in r.heard && r.heard[id] == timestampMs && id !in r.silent && r.staleSince == s.staleSince
      && id in r.drones && r.drones[id].alive && r.drones[id].reachable && r.drones[id].position == past.position
      && r.drones[id].target == past.target && r.drones[id].claimed == past.claimed
    ensures var r := After(s, OwnBeat(timestampMs), me);
      me in r.heard && r.heard[me] == timestampMs && me !in r.silent && r.drones == s.drones
  {}

  lemma AccountsInWords(s: Ledger, state: Drone, claim: ClaimRequest, me: DroneId)
    ensures var r := After(s, StateHeard(state), me).drones;
      && state.id in r && r[state.id].position == state.position && r[state.id].target == state.target
      && r[state.id].claimed == state.claimed && r[state.id].status == state.status
      && r[state.id].alive == state.alive && r[state.id].reachable == state.reachable
      && r[state.id].subzone == Known(s.drones, state.id).subzone
    ensures claim.claimId in s.resolved ==> After(s, ClaimHeard(claim), me) == s
    ensures claim.claimId !in s.resolved ==>
      var r, past := After(s, ClaimHeard(claim), me), Known(s.drones, claim.droneId);
      && r.index == Filed(s.index, claim) && claim.droneId in r.drones
      && r.drones[claim.droneId].position == claim.position && r.drones[claim.droneId].status == Claiming
      && r.drones[claim.droneId].target == past.target && r.drones[claim.droneId].alive == past.alive
  {}

  /** Late are the drones overdue, and those found silent before that have not beaten since. */
  lemma LateExactly(s: Ledger, nowMs: int, timeoutMs: int, id: DroneId)
    ensures id in Late(s, nowMs, timeoutMs) <==> id in s.heard && (nowMs - s.heard[id] > timeoutMs || id in s.silent)
  {}

  /** A peer starts without claims, rounds, drones or beats, at round number 0. */
  lemma StartsEmpty()
    ensures Start().index.pending.Keys == Start().index.timestamps.Keys == {} && Start().index.byCell.Keys == {}
    ensures Start().resolved == Start().processed == {} && Start().roundId == 0 && Start().auctions == 0
    ensures Start().drones.Keys == Start().heard.Keys == Start().staleSince.Keys == {}
    ensures Start().released == Start().silent == {} && Start().outbox == []
  {}
}
