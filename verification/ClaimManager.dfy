/** The claim manager of a peer: three indexes of pending claims, updated in place. */
module ClaimManager {
  import opened Basics
  import opened Sorting
  import opened Auction
  import opened Drones
  import opened Consensus
  import opened Heartbeats
  import opened ClaimLedger
  import opened ClaimRuns

  lemma {:induction false} UnlistOne(ids: seq<ClaimId>, gone: set<ClaimId>, id: ClaimId)
    requires id !in gone
    ensures Unlisted(Unlisted(ids, gone), {id}) == Unlisted(ids, gone + {id})
    decreases |ids|
  {
    if ids != [] {
      var head, tail := ids[0], ids[1..];
      if head == id {
        NothingGone(Unlisted(tail, gone));
        assert {id} - {id} == {} && gone + {id} - {id} == gone;
        assert Unlisted(ids, gone) == [id] + Unlisted(tail, gone);
      } else if head in gone {
        UnlistOne(tail, gone - {head}, id);
        assert gone - {head} + {id} == gone + {id} - {head};
      } else {
        UnlistOne(tail, gone, id);
        assert Unlisted(ids, gone) == [head] + Unlisted(tail, gone);
      }
    }
  }

  lemma {:induction false} NothingGone(ids: seq<ClaimId>)
    ensures Unlisted(ids, {}) == ids
  {
    if ids != [] {
      NothingGone(ids[1..]);
    }
  }

  /** Keeps the largest entries of an overfull memory. */
  method TrimSet(s: set<int>, cap: nat) returns (kept: set<int>)
    ensures kept == Largest(s, cap)
  {
    hide Sort, KeepsLargest;
    kept := s;
    if |s| > cap {
      var listed := ListSet(s);
      DistinctLength(listed);
      SortedIds(listed);
      var sorted := Sort(listed, IdLe);
      var oldest := sorted[..|s| - cap];
      kept := s - Elements(oldest);
      SplitSorted(s, listed, |s| - cap);
      LargestUnique(s, kept, Largest(s, cap), cap);
    } else {
      LargestUnique(s, kept, Largest(s, cap), cap);
    }
  }

  lemma SplitSorted(s: set<int>, listed: seq<int>, n: nat)
    requires Distinct(listed) && Elements(listed) == s && n <= |s| == |listed|
    ensures KeepsLargest(s, s - Elements(Sort(listed, IdLe)[..n]), |s| - n)
  {
    hide Sort;
    SortedIds(listed);
    var sorted := Sort(listed, IdLe);
    SortedElements(listed);
    FrontIsSmallest(sorted, n);
  }

  lemma SortedElements(listed: seq<int>)
    requires Distinct(listed)
    ensures Elements(Sort(listed, IdLe)) == Elements(listed) && |Sort(listed, IdLe)| == |listed|
  {
    hide Sort;
    SortedIds(listed);
    forall x ensures x in Elements(Sort(listed, IdLe)) <==> x in Elements(listed) {
      assert x in Sort(listed, IdLe) <==> x in listed;
    }
  }

  lemma FrontIsSmallest(sorted: seq<int>, n: nat)
    requires n <= |sorted| == |Elements(sorted)| && forall i, j :: 0 <= i < j < |sorted| ==> sorted[i] < sorted[j]
    ensures KeepsLargest(Elements(sorted), Elements(sorted) - Elements(sorted[..n]), |sorted| - n)
  {
    var s, oldest := Elements(sorted), sorted[..n];
    DistinctLength(oldest);
    forall x | x in Elements(oldest) ensures x in s {
      assert x in oldest;
    }
    assert |s - Elements(oldest)| == |s| - n;
    forall m | 0 <= m < n ensures sorted[m] in Elements(oldest) {
      assert sorted[m] == oldest[m];
    }
    forall x, y | x in s && x in Elements(oldest) && y in s - Elements(oldest) ensures x < y {
      var i :| 0 <= i < n && oldest[i] == x;
      var j :| 0 <= j < |sorted| && sorted[j] == y;
    }
  }

  /** Claims gathered under the cell they ask for. */
  method GroupByCell(claims: seq<ClaimRequest>) returns (grouped: map<Coord, seq<ClaimRequest>>)
    requires Distinct(claims)
    ensures forall cell :: cell in grouped ==> grouped[cell] != [] && Distinct(grouped[cell])
    ensures forall cell, k :: cell in grouped && 0 <= k < |grouped[cell]| ==> grouped[cell][k].cell == cell
    ensures forall c :: c in claims <==> c.cell in grouped && c in grouped[c.cell]
  {
    grouped := map[];
    for i := 0 to |claims|
      invariant forall cell :: cell in grouped ==> grouped[cell] != [] && Distinct(grouped[cell])
      invariant forall cell, k :: cell in grouped && 0 <= k < |grouped[cell]| ==> grouped[cell][k].cell == cell
      invariant forall c :: c in claims[..i] <==> c.cell in grouped && c in grouped[c.cell]
    {
      var claim := claims[i];
      assert claims[..i + 1] == claims[..i] + [claim];
      assert claim !in claims[..i];
      grouped := grouped[claim.cell := (if claim.cell in grouped then grouped[claim.cell] else []) + [claim]];
    }
    assert claims[..|claims|] == claims;
  }

  /** The groups in the order in which they are resolved. */
  method OrderedGroups(claims: seq<ClaimRequest>) returns (groups: seq<seq<ClaimRequest>>)
    requires Distinct(claims)
    ensures Grouped(Elements(claims), groups)
  {
    hide Sort;
    var grouped := GroupByCell(claims);
    var listed := ListSet(grouped.Keys);
    var cells := Sort(listed, TupleLe);
    SortAscending(listed);
    assert forall i :: 0 <= i < |cells| ==> cells[i] in Elements(cells);
    groups := seq(|cells|, i requires 0 <= i < |cells| => grouped[cells[i]]);
    forall g | 0 <= g < |groups|
      ensures groups[g] != [] && Distinct(groups[g]) && SameCell(groups[g]) && groups[g][0].cell == cells[g]
    {
      assert groups[g] == grouped[cells[g]];
    }
    forall c ensures c in Elements(claims) <==> exists g :: 0 <= g < |groups| && c in groups[g] {
      if c in claims {
        assert c.cell in Elements(cells);
        var g :| 0 <= g < |cells| && cells[g] == c.cell;
        assert c in groups[g];
      }
      if g :| 0 <= g < |groups| && c in groups[g] {
        assert c.cell == cells[g];
      }
    }
  }

  class PeerClaimManager {
    const me: DroneId
    const resolver: DeterministicResolver
    const heartbeat: HeartbeatRegistry
    var pending: map<ClaimId, ClaimRequest>
    var pendingTimestamps: map<ClaimId, int>
    var pendingByCell: map<Coord, seq<ClaimId>>
    var resolvedIds: set<ClaimId>
    var processedRounds: set<int>
    var releasedStale: set<DroneId>
    var auctions: nat
    var peerDrones: map<DroneId, Drone>
    var staleSince: map<DroneId, int>
    var published: seq<RoundPayload>

    function Indexes(): Index
      reads this`pending, this`pendingTimestamps, this`pendingByCell
    {
      Index(pending, pendingTimestamps, pendingByCell)
    }

    function State(): Ledger
      reads this, resolver`roundId, heartbeat
    {
      Ledger(Indexes(), resolvedIds, processedRounds, resolver.roundId, peerDrones, auctions, releasedStale, staleSince,
             heartbeat.lastSeen, heartbeat.stale, published)
    }

    /** The resolver votes without a mesh and knows at least this peer. */
    ghost predicate Ready()
      reads resolver`seenVotes, resolver`seenOrder, resolver`peerIds
    {
      resolver.Valid() && resolver.peerIds != [] && !resolver.hasMesh
    }

    ghost predicate Valid()
      reads this, resolver, heartbeat
    {
      Ready() && LedgerInv(State())
    }

    constructor (me: DroneId, resolver: DeterministicResolver, heartbeat: HeartbeatRegistry)
      requires resolver.Valid() && resolver.peerIds != [] && !resolver.hasMesh && resolver.roundId == 0
      requires heartbeat.lastSeen == map[] && heartbeat.stale == {}
      ensures Valid() && State() == Start()
      ensures this.me == me && this.resolver == resolver && this.heartbeat == heartbeat
    {
      this.me := me;
      this.resolver := resolver;
      this.heartbeat := heartbeat;
      pending, pendingTimestamps, pendingByCell := map[], map[], map[];
      resolvedIds, processedRounds, releasedStale := {}, {}, {};
      auctions := 0;
      peerDrones, staleSince := map[], map[];
      published := [];
    }

    method EnsurePeer(id: DroneId)
      modifies this`peerDrones
      ensures peerDrones == old(peerDrones)[id := Known(old(peerDrones), id)]
    {
      if id !in peerDrones {
        peerDrones := peerDrones[id := Drone(id, Coord(0, 0), IdleStatus, None, None, Whole, true, true, 0)];
      }
    }

    method MarkStale(id: DroneId, nowMs: int)
      modifies this`peerDrones, this`staleSince
      ensures peerDrones == old(peerDrones)[id := MarkedStale(Known(old(peerDrones), id))]
      ensures staleSince == old(staleSince)[id := nowMs]
    {
      EnsurePeer(id);
      peerDrones := peerDrones[id := MarkedStale(peerDrones[id])];
      staleSince := staleSince[id := nowMs];
    }

    method EvictPendingClaimsForCell(cell: Coord)
      modifies this`pending, this`pendingTimestamps, this`pendingByCell
      ensures Indexes() == Evicted(old(Indexes()), cell)
    {
      var ids := ListedAt(pendingByCell, cell);
      pendingByCell := pendingByCell - {cell};
      for k := 0 to |ids|
        invariant pendingByCell == old(pendingByCell) - {cell}
        invariant pending == old(pending) - Elements(ids[..k])
        invariant pendingTimestamps == old(pendingTimestamps) - Elements(ids[..k])
      {
        assert Elements(ids[..k + 1]) == Elements(ids[..k]) + {ids[k]};
        pending := pending - {ids[k]};
        pendingTimestamps := pendingTimestamps - {ids[k]};
      }
      assert ids[..|ids|] == ids;
    }

    /** The round's number, release and size are taken down. */
    method NoteRound(round: RoundPayload, nowMs: int)
      requires Ready()
      modifies this`processedRounds, this`peerDrones, this`staleSince, this`auctions, resolver`roundId
      ensures Ready() && processedRounds == old(processedRounds) + {round.id}
      ensures resolver.roundId == if round.id > old(resolver.roundId) then round.id else old(resolver.roundId)
      ensures auctions == old(auctions) + (if |round.assignments| > 1 then 1 else 0)
      ensures round.releasedBy.None? ==> peerDrones == old(peerDrones) && staleSince == old(staleSince)
      ensures round.releasedBy.Some? ==>
        var id := round.releasedBy.value;
        peerDrones == old(peerDrones)[id := MarkedStale(Known(old(peerDrones), id))]
            && staleSince == old(staleSince)[id := nowMs]
    {
      hide MarkedStale, Known;
      processedRounds := processedRounds + {round.id};
      resolver.SyncRoundId(round.id);
      if round.releasedBy.Some? {
        MarkStale(round.releasedBy.value, nowMs);
      }
      if |round.assignments| > 1 {
        auctions := auctions + 1;
      }
    }

    /** Applies a round unless its number is remembered. */
    method ApplyRound(round: RoundPayload, nowMs: int)
      requires Ready()
      modifies this, resolver`roundId
      ensures Ready() && State() == ClaimLedger.ApplyRound(old(State()), round, me, nowMs)
    {
      hide Evicted, AssignAll, MarkedStale, Known, Ready, ListedAt, Active, Elements;
      if round.id in processedRounds {
        return;
      }
      NoteRound(round, nowMs);
      EvictPendingClaimsForCell(round.cell);
      ApplyAssignments(round.assignments);
    }

    method ApplyAssignments(assignments: seq<ZoneAssignment>)
      modifies this`peerDrones
      ensures peerDrones == AssignAll(old(peerDrones), assignments, me)
    {
      assert assignments[..0] == [];
      for k := 0 to |assignments|
        invariant peerDrones == AssignAll(old(peerDrones), assignments[..k], me)
      {
        ghost var before := peerDrones;
        var a := assignments[k];
        EnsurePeer(a.droneId);
        if a.reason == Idle {
          peerDrones := peerDrones[a.droneId := Cleared(peerDrones[a.droneId])];
        } else {
          var after := Assigned(peerDrones[a.droneId], a.cell, a.subzone);
          peerDrones := peerDrones[a.droneId := if a.droneId == me then after.(status := ClaimWon) else after];
        }
        assert peerDrones == AssignOne(before, a, me);
        assert assignments[..k + 1][..k] == assignments[..k];
      }
      assert assignments[..|assignments|] == assignments;
    }

    method File(claim: ClaimRequest)
      modifies this`pending, this`pendingTimestamps, this`pendingByCell
      ensures Indexes() == Filed(old(Indexes()), claim)
    {
      pending := pending[claim.claimId := claim];
      pendingByCell := pendingByCell[claim.cell := ListedAt(pendingByCell, claim.cell) + [claim.claimId]];
      pendingTimestamps := pendingTimestamps[claim.claimId := claim.timestampMs];
    }

    method HandleClaim(claim: ClaimRequest)
      requires Valid()
      modifies this
      ensures Valid() && State() == After(old(State()), ClaimHeard(claim), me)
    {
      hide LedgerInv, Known, Ready, Filed;
      StepKeeps(State(), ClaimHeard(claim), me);
      if claim.claimId in resolvedIds {
        return;
      }
      File(claim);
      ghost var drones := peerDrones;
      EnsurePeer(claim.droneId);
      var peer := peerDrones[claim.droneId];
      peerDrones := peerDrones[claim.droneId := peer.(position := claim.position, status := Claiming)];
      assert peerDrones == drones[claim.droneId :=
        Known(drones, claim.droneId).(position := claim.position, status := Claiming)];
    }

    method BuildAndPublishClaim(claimId: ClaimId, cell: Coord, position: Coord, nowMs: int)
        returns (claim: ClaimRequest)
      requires Valid()
      modifies this
      ensures claim == ClaimRequest(claimId, me, cell, position, nowMs)
      ensures Valid() && State() == After(old(State()), ClaimMade(claim), me)
    {
      hide LedgerInv, Filed;
      claim := ClaimRequest(claimId, me, cell, position, nowMs);
      StepKeeps(State(), ClaimMade(claim), me);
      File(claim);
    }

    method HandleConsensusRound(round: RoundPayload, nowMs: int)
      requires Valid()
      modifies this, resolver`roundId
      ensures Valid() && State() == After(old(State()), RoundHeard(round, nowMs), me)
    {
      StepKeeps(State(), RoundHeard(round, nowMs), me);
      ApplyRound(round, nowMs);
    }

    // ----- who is heard -----

    /** A beat is recorded, and the peer that sent it is back on record as alive and reachable. */
    method HandleHeartbeat(id: DroneId, position: Coord, timestampMs: int)
      requires Valid()
      modifies this`peerDrones, this`staleSince, heartbeat
      ensures Valid() && State() == After(old(State()), BeatHeard(id, position, timestampMs), me)
    {
      hide LedgerInv, Known, ListedAt, Elements;
      StepKeeps(State(), BeatHeard(id, position, timestampMs), me);
      ghost var drones := peerDrones;
      EnsurePeer(id);
      var peer := peerDrones[id];
      var wasStale := !peer.reachable || !peer.alive || id in staleSince;
      peerDrones := peerDrones[id := peer.(position := position, alive := true, reachable := true)];
      heartbeat.Register(id, timestampMs);
      assert id !in staleSince ==> staleSince - {id} == staleSince;
      if wasStale {
        staleSince := staleSince - {id};
      }
      assert peerDrones == drones[id := Known(drones, id).(position := position, alive := true, reachable := true)];
    }

    method HandleRejoin(id: DroneId, timestampMs: int)
      requires Valid()
      modifies this`peerDrones, heartbeat
      ensures Valid() && State() == After(old(State()), Rejoined(id, timestampMs), me)
    {
      hide LedgerInv, Known;
      StepKeeps(State(), Rejoined(id, timestampMs), me);
      ghost var drones := peerDrones;
      EnsurePeer(id);
      peerDrones := peerDrones[id := peerDrones[id].(alive := true, reachable := true)];
      heartbeat.Register(id, timestampMs);
      assert peerDrones == drones[id := Known(drones, id).(alive := true, reachable := true)];
    }

    /** A peer's own account of its drone replaces what was on record, except the half of a split cell. */
    method HandleDroneState(state: Drone)
      requires Valid()
      modifies this`peerDrones
      ensures Valid() && State() == After(old(State()), StateHeard(state), me)
    {
      hide LedgerInv, Known;
      StepKeeps(State(), StateHeard(state), me);
      ghost var drones := peerDrones;
      EnsurePeer(state.id);
      peerDrones := peerDrones[state.id := state.(subzone := peerDrones[state.id].subzone)];
      assert peerDrones == drones[state.id := state.(subzone := Known(drones, state.id).subzone)];
    }

    method PublishHeartbeat(nowMs: int)
      requires Valid()
      modifies heartbeat
      ensures Valid()
      ensures State() == if Known(peerDrones, me).alive then After(old(State()), OwnBeat(nowMs), me) else old(State())
    {
      hide LedgerInv;
      StepKeeps(State(), OwnBeat(nowMs), me);
      if Known(peerDrones, me).alive {
        heartbeat.Register(me, nowMs);
      }
    }

    /** A look at who is silent, without consequences for the drones. */
    method SurveyPeers(nowMs: int, timeoutMs: int) returns (active: set<DroneId>, late: set<DroneId>)
      requires Valid()
      modifies heartbeat`stale
      ensures late == Late(old(State()), nowMs, timeoutMs) && active == heartbeat.lastSeen.Keys - late
      ensures Valid() && State() == After(old(State()), SilenceSurveyed(nowMs, timeoutMs), me)
    {
      hide LedgerInv;
      StepKeeps(State(), SilenceSurveyed(nowMs, timeoutMs), me);
      active, late := heartbeat.DetectStale(nowMs, timeoutMs);
    }

    // ----- silent peers -----

    method PublishRelease(id: DroneId, cell: Coord, nowMs: int)
      requires Ready()
      modifies this, resolver`roundId
      ensures Ready() && releasedStale == old(releasedStale)
      ensures State() == Announce(old(State()), RoundPayload(old(resolver.roundId) + 1, cell, [], Some(id)), me, nowMs)
    {
      hide ClaimLedger.ApplyRound, Ready;
      var release := resolver.ConfirmRelease(id, cell, nowMs);
      var round := RoundPayload(release.roundId, release.decision.cell, release.decision.assignments, Some(id));
      AnnounceFrame(State(), round, me, nowMs);
      published := published + [round];
      ApplyRound(round, nowMs);
    }

    method ReleaseSilent(id: DroneId, nowMs: int)
      requires Ready()
      modifies this, resolver`roundId
      ensures Ready() && State() == SilenceOne(old(State()), id, me, nowMs)
    {
      hide Announce, Known, MarkedStale, Ready;
      if id == me {
        return;
      }
      EnsurePeer(id);
      if !peerDrones[id].alive {
        return;
      }
      if id !in releasedStale && peerDrones[id].claimed.Some? {
        PublishRelease(id, peerDrones[id].claimed.value, nowMs);
        releasedStale := releasedStale + {id};
      }
      MarkStale(id, nowMs);
    }

    method DetectStalePeers(nowMs: int, timeoutMs: int) returns (late: seq<DroneId>)
      requires Valid()
      modifies this, resolver`roundId, heartbeat`stale
      ensures Possible(old(State()), SilenceFound(late, nowMs, timeoutMs))
      ensures Valid() && State() == After(old(State()), SilenceFound(late, nowMs, timeoutMs), me)
    {
      hide SilenceOne, LedgerInv;
      var active, found := heartbeat.DetectStale(nowMs, timeoutMs);
      late := ListSet(found);
      StepKeeps(old(State()), SilenceFound(late, nowMs, timeoutMs), me);
      ghost var start := State();
      assert late[..0] == [];
      for k := 0 to |late|
        invariant Ready() && State() == SilenceAll(start, late[..k], me, nowMs)
      {
        assert late[..k + 1][..k] == late[..k];
        ReleaseSilent(late[k], nowMs);
      }
      assert late[..|late|] == late;
    }

    // ----- resolving claims -----

    method Unlist(id: ClaimId)
      modifies this`pendingByCell
      ensures pendingByCell == map c | c in old(pendingByCell) :: Unlisted(old(pendingByCell)[c], {id})
    {
      var cells := ListSet(pendingByCell.Keys);
      for k := 0 to |cells|
        invariant pendingByCell.Keys == old(pendingByCell).Keys
        invariant forall c :: c in pendingByCell ==>
          pendingByCell[c] == if c in Elements(cells[..k]) then Unlisted(old(pendingByCell)[c], {id})
              else old(pendingByCell)[c]
      {
        assert Elements(cells[..k + 1]) == Elements(cells[..k]) + {cells[k]};
        assert cells[k] !in Elements(cells[..k]);
        pendingByCell := pendingByCell[cells[k] := Unlisted(pendingByCell[cells[k]], {id})];
      }
      assert cells[..|cells|] == cells;
    }

    /** Removes claims from all three indexes. */
    method Drop(ids: seq<ClaimId>)
      requires Distinct(ids)
      modifies this`pending, this`pendingTimestamps, this`pendingByCell
      ensures Indexes() == Dropped(old(Indexes()), Elements(ids))
    {
      hide Unlisted;
      assert Dropped(Indexes(), {}) == Indexes() by {
        forall c | c in pendingByCell ensures Unlisted(pendingByCell[c], {}) == pendingByCell[c] {
          NothingGone(pendingByCell[c]);
        }
      }
      assert Elements(ids[..0]) == {};
      for k := 0 to |ids|
        invariant Indexes() == Dropped(old(Indexes()), Elements(ids[..k]))
      {
        assert Elements(ids[..k + 1]) == Elements(ids[..k]) + {ids[k]};
        assert ids[k] !in Elements(ids[..k]);
        forall c | c in old(pendingByCell)
          ensures Unlisted(Unlisted(old(pendingByCell)[c], Elements(ids[..k])), {ids[k]})
                  == Unlisted(old(pendingByCell)[c], Elements(ids[..k + 1]))
        {
          UnlistOne(old(pendingByCell)[c], Elements(ids[..k]), ids[k]);
        }
        pending := pending - {ids[k]};
        pendingTimestamps := pendingTimestamps - {ids[k]};
        Unlist(ids[k]);
      }
      assert ids[..|ids|] == ids;
    }

    method SettleGroup(group: seq<ClaimRequest>, view: MapView, nowMs: int, nonce: int)
      requires Ready() && group != []
      modifies this, resolver
      ensures Ready() && State() == SettleOne(old(State()), group, view, me, nowMs)
    {
      hide ResolveConflict, RoundSound, ClaimLedger.ApplyRound, Claimed;
      ResolveShape(group, view, Claimed(peerDrones));
      var outcome := resolver.ResolveClaims(group, view, Claimed(peerDrones), 0, None, nonce, []);
      var decision := outcome.round.decision;
      var round := RoundPayload(outcome.round.roundId, decision.cell, decision.assignments, None);
      published := published + [round];
      ApplyRound(round, nowMs);
      resolvedIds := resolvedIds + IdsOf(group);
    }

    method SettleGroups(groups: seq<seq<ClaimRequest>>, view: MapView, nowMs: int, nonce: int)
      requires Ready() && forall g :: 0 <= g < |groups| ==> groups[g] != []
      modifies this, resolver
      ensures Ready() && State() == SettleAll(old(State()), groups, view, me, nowMs)
    {
      hide SettleOne, Ready;
      assert groups[..0] == [];
      for g := 0 to |groups|
        invariant Ready() && State() == SettleAll(old(State()), groups[..g], view, me, nowMs)
      {
        assert groups[..g + 1][..g] == groups[..g];
        SettleGroup(groups[g], view, nowMs, nonce);
      }
      assert groups[..|groups|] == groups;
    }

    /** Drops what is resolved and trims the memories. */
    method Sweep()
      modifies this
      ensures State() == Swept(old(State()))
    {
      hide Dropped, Largest;
      var done := ListSet(pending.Keys * resolvedIds);
      Drop(done);
      processedRounds := TrimSet(processedRounds, MAX_TRACKED);
      resolvedIds := TrimSet(resolvedIds, MAX_TRACKED);
    }

    /** One pass: drops the claims that waited too long, resolves those that waited long enough cell by
        cell, and forgets what is done. */
    method ResolvePendingClaims(nowMs: int, delayMs: int, view: MapView, nonce: int)
        returns (groups: seq<seq<ClaimRequest>>)
      requires Valid()
      modifies this, resolver
      ensures Possible(old(State()), ClaimsResolved(groups, view, delayMs, nowMs))
      ensures Valid() && State() == After(old(State()), ClaimsResolved(groups, view, delayMs, nowMs), me)
    {
      hide LedgerInv, Ready, Dropped, SettleAll, Expired, Mature, Swept;
      var expired := ListSet(Expired(Indexes(), delayMs, nowMs));
      Drop(expired);
      assert State() == Unexpired(old(State()), delayMs, nowMs);
      var mature := ListSet(Mature(State(), delayMs, nowMs));
      groups := OrderedGroups(mature);
      StepKeeps(old(State()), ClaimsResolved(groups, view, delayMs, nowMs), me);
      SettleGroups(groups, view, nowMs, nonce);
      Sweep();
    }
  }
}
