/** Zone selection and the claim auction. */
module Auction {
  import opened Basics
  import opened Sorting

  // ----- zone selection -----

  /** What the selector sees of a certainty map: its size and the entropy of each cell. Entropies are
      arbitrary reals, so every statement holds for every certainty map and every entropy function. */
  datatype MapView = MapView(size: nat, entropy: Coord -> real)

  function Without(cells: seq<Coord>, taken: set<Coord>): (free: seq<Coord>)
    ensures forall c :: c in free <==> c in cells && c !in taken
  {
    if cells == [] then []
    else if cells[0] in taken then Without(cells[1..], taken)
    else [cells[0]] + Without(cells[1..], taken)
  }

  /** Higher entropy first, then the shorter way (unless distance is ignored), then row, then column. */
  predicate Precedes(view: MapView, from: Coord, ignoreDistance: bool, a: Coord, b: Coord) {
    if view.entropy(a) != view.entropy(b) then view.entropy(a) > view.entropy(b)
    else if !ignoreDistance && DistSquared(from, a) != DistSquared(from, b) then
      DistSquared(from, a) < DistSquared(from, b)
    else RowMajorLess(a, b)
  }

  lemma PrecedesOrder(view: MapView, from: Coord, ignoreDistance: bool, a: Coord, b: Coord, c: Coord)
    ensures a != b ==> Precedes(view, from, ignoreDistance, a, b) || Precedes(view, from, ignoreDistance, b, a)
    ensures Precedes(view, from, ignoreDistance, a, b) && Precedes(view, from, ignoreDistance, b, c) ==>
      Precedes(view, from, ignoreDistance, a, c)
  {
    hide DistSquared;
  }

  function First(view: MapView, from: Coord, ignoreDistance: bool, cells: seq<Coord>): (r: Option<Coord>)
    ensures r.None? <==> cells == []
    ensures r.Some? ==> r.value in cells
  {
    if cells == [] then None
    else
      var rest := First(view, from, ignoreDistance, cells[1..]);
      if rest.Some? && Precedes(view, from, ignoreDistance, rest.value, cells[0]) then rest
      else Some(cells[0])
  }

  lemma {:induction false} FirstPrecedes(view: MapView, from: Coord, ignoreDistance: bool, cells: seq<Coord>, c: Coord)
    requires c in cells && c != First(view, from, ignoreDistance, cells).value
    ensures Precedes(view, from, ignoreDistance, First(view, from, ignoreDistance, cells).value, c)
  {
    hide Precedes;
    var rest := First(view, from, ignoreDistance, cells[1..]);
    if c != cells[0] {
      assert c in cells[1..];
      if rest.value != c {
        FirstPrecedes(view, from, ignoreDistance, cells[1..], c);
      }
      PrecedesOrder(view, from, ignoreDistance, rest.value, cells[0], c);
      PrecedesOrder(view, from, ignoreDistance, cells[0], rest.value, c);
    }
  }

  function FreeList(size: nat, taken: set<Coord>): (free: seq<Coord>)
    ensures forall c :: c in free <==> InGrid(c, size) && c !in taken
    ensures free == [] <==> forall c :: InGrid(c, size) ==> c in taken
  {
    var free := Without(CellsOfRows(size, size), taken);
    assert free != [] ==> free[0] in free;
    free
  }

  /** The best cell that is not taken, that is, neither claimed nor blocked. */
  function SelectNextZone(view: MapView, taken: set<Coord>, from: Coord, ignoreDistance: bool): (r: Option<Coord>)
    ensures r.None? <==> forall c :: InGrid(c, view.size) ==> c in taken
    ensures r.Some? ==> InGrid(r.value, view.size) && r.value !in taken
  {
    First(view, from, ignoreDistance, FreeList(view.size, taken))
  }

  /** The selected cell precedes every other free cell: it has more entropy; or as much and, where distance
      counts, a shorter way; or ties in this too and lies in an earlier row, or earlier in the same row. */
  lemma SelectionIsBest(view: MapView, taken: set<Coord>, from: Coord, ignoreDistance: bool, c: Coord)
    requires InGrid(c, view.size) && c !in taken
    ensures var r := SelectNextZone(view, taken, from, ignoreDistance);
            r.Some? && (r.value == c || Precedes(view, from, ignoreDistance, r.value, c))
    ensures var r := SelectNextZone(view, taken, from, ignoreDistance).value;
      || view.entropy(r) > view.entropy(c)
      || (view.entropy(r) == view.entropy(c) && !ignoreDistance && DistSquared(from, r) < DistSquared(from, c))
      || (view.entropy(r) == view.entropy(c) && (ignoreDistance || DistSquared(from, r) == DistSquared(from, c))
          && (r.y < c.y || (r.y == c.y && r.x <= c.x)))
  {
    hide First, DistSquared;
    var free := FreeList(view.size, taken);
    if First(view, from, ignoreDistance, free).value != c {
      FirstPrecedes(view, from, ignoreDistance, free, c);
    }
  }

  // ----- claims and assignments -----

  datatype ClaimRequest = ClaimRequest(claimId: int, droneId: DroneId, cell: Coord, position: Coord, timestampMs: int)

  datatype Subzone = Whole | Left | Right

  datatype Reason = Winner | Split | Fallback | Idle | PriorityReclaim | PriorityTarget

  datatype ZoneAssignment = ZoneAssignment(droneId: DroneId, cell: Coord, reason: Reason, subzone: Subzone)

  datatype Rationale = SingleClaim | SplitZone | Precedence | MajorityVote(droneId: DroneId) | Release

  datatype AuctionDecision = AuctionDecision(cell: Coord, assignments: seq<ZoneAssignment>, rationale: Rationale)

  /** Earlier claims first, then the shorter way to the claimed cell, then the smaller id. */
  predicate ClaimLe(a: ClaimRequest, b: ClaimRequest) {
    var da, db := DistSquared(a.position, a.cell), DistSquared(b.position, b.cell);
    a.timestampMs < b.timestampMs
    || (a.timestampMs == b.timestampMs && (da < db || (da == db && a.droneId <= b.droneId)))
  }

  lemma ClaimOrder()
    ensures TotalPreorder(ClaimLe)
  {
    hide DistSquared;
  }

  ghost predicate DistinctDrones(claims: seq<ClaimRequest>) {
    forall i, j :: 0 <= i < j < |claims| ==> claims[i].droneId != claims[j].droneId
  }

  // ----- fallbacks for the losers -----

  function FallbackFor(loser: ClaimRequest, view: MapView, reserved: set<Coord>): ZoneAssignment {
    var selection := SelectNextZone(view, reserved, loser.position, false);
    if selection.None? then ZoneAssignment(loser.droneId, loser.cell, Idle, Whole)
    else ZoneAssignment(loser.droneId, selection.value, Fallback, Whole)
  }

  function Reserve(reserved: set<Coord>, a: ZoneAssignment): set<Coord> {
    if a.reason == Idle then reserved else reserved + {a.cell}
  }

  /** Serving the losers in order, each from what the earlier ones left. */
  function Fallbacks(losers: seq<ClaimRequest>, view: MapView, reserved: set<Coord>): (r: seq<ZoneAssignment>)
    ensures |r| == |losers|
  {
    if losers == [] then []
    else
      var a := FallbackFor(losers[0], view, reserved);
      [a] + Fallbacks(losers[1..], view, Reserve(reserved, a))
  }

  method FallbackAssignments(losers: seq<ClaimRequest>, view: MapView, claimed: set<Coord>)
      returns (assignments: seq<ZoneAssignment>)
    ensures assignments == Fallbacks(losers, view, claimed)
  {
    hide SelectNextZone;
    assignments := [];
    var reserved := claimed;
    for i := 0 to |losers|
      invariant assignments + Fallbacks(losers[i..], view, reserved) == Fallbacks(losers, view, claimed)
    {
      var loser := losers[i];
      assert losers[i..][0] == loser && losers[i..][1..] == losers[i + 1..];
      var selection := SelectNextZone(view, reserved, loser.position, false);
      if selection.None? {
        assignments := assignments + [ZoneAssignment(loser.droneId, loser.cell, Idle, Whole)];
        continue;
      }
      reserved := reserved + {selection.value};
      assignments := assignments + [ZoneAssignment(loser.droneId, selection.value, Fallback, Whole)];
    }
  }

  /** Cells of the grid that are not reserved. */
  ghost function FreeCells(view: MapView, reserved: set<Coord>): set<Coord> {
    GridCells(view.size) - reserved
  }

  lemma FallbackForFacts(loser: ClaimRequest, view: MapView, reserved: set<Coord>)
    ensures var a := FallbackFor(loser, view, reserved);
            && (a.reason == Fallback <==> |FreeCells(view, reserved)| > 0)
            && (a.reason == Fallback ==> a.cell in FreeCells(view, reserved) && InGrid(a.cell, view.size))
            && (a.reason == Fallback ==> |FreeCells(view, Reserve(reserved, a))| == |FreeCells(view, reserved)| - 1)
  {
    hide SelectNextZone;
    forall c ensures c in FreeCells(view, reserved) <==> InGrid(c, view.size) && c !in reserved {
      GridCellsExact(view.size, c);
    }
    var a := FallbackFor(loser, view, reserved);
    if a.reason == Fallback {
      assert FreeCells(view, reserved + {a.cell}) == FreeCells(view, reserved) - {a.cell};
    } else {
      assert FreeCells(view, reserved) == {};
    }
  }

  ghost predicate ServedFrom(r: seq<ZoneAssignment>, losers: seq<ClaimRequest>, view: MapView, reserved: set<Coord>) {
    && |r| == |losers|
    && (forall i :: 0 <= i < |r| ==>
          && r[i].droneId == losers[i].droneId && r[i].subzone == Whole
          && r[i].reason == (if i < |FreeCells(view, reserved)| then Fallback else Idle))
    && (forall i :: 0 <= i < |r| && r[i].reason == Fallback ==> InGrid(r[i].cell, view.size) && r[i].cell !in reserved)
    && (forall i :: 0 <= i < |r| && r[i].reason == Idle ==> r[i].cell == losers[i].cell)
    && (forall i, j :: 0 <= i < j < |r| && r[i].reason == Fallback && r[j].reason == Fallback ==>
      r[i].cell != r[j].cell)
  }

  /** Every loser gets one assignment. The first |free cells| of them fall back to pairwise different
      cells outside the reserved ones, and only the others, if any, stay idle. */
  lemma {:induction false} FallbackShape(losers: seq<ClaimRequest>, view: MapView, reserved: set<Coord>)
    ensures ServedFrom(Fallbacks(losers, view, reserved), losers, view, reserved)
  {
    if losers != [] {
      var a := FallbackFor(losers[0], view, reserved);
      var rest := Fallbacks(losers[1..], view, Reserve(reserved, a));
      FallbackForFacts(losers[0], view, reserved);
      FallbackShape(losers[1..], view, Reserve(reserved, a));
      ServedOneMore(losers, view, reserved, a, rest);
    }
  }

  lemma ServedOneMore(losers: seq<ClaimRequest>, view: MapView, reserved: set<Coord>, a: ZoneAssignment,
                      rest: seq<ZoneAssignment>)
    requires losers != [] && ServedFrom(rest, losers[1..], view, Reserve(reserved, a))
    requires a.droneId == losers[0].droneId && a.subzone == Whole && (a.reason == Fallback || a.reason == Idle)
    requires a.reason == Idle ==> a.cell == losers[0].cell
    requires a.reason == Fallback <==> |FreeCells(view, reserved)| > 0
    requires a.reason == Fallback ==> a.cell in FreeCells(view, reserved) && InGrid(a.cell, view.size)
    requires a.reason == Fallback ==> |FreeCells(view, Reserve(reserved, a))| == |FreeCells(view, reserved)| - 1
    ensures ServedFrom([a] + rest, losers, view, reserved)
  {
    hide FreeCells, InGrid;
    var r := [a] + rest;
    assert forall i :: 0 < i < |r| ==> r[i] == rest[i - 1] && losers[i] == losers[1..][i - 1];
    assert a.reason == Fallback ==> a.cell !in reserved by {
      FreeNotReserved(view, reserved, a.cell);
    }
  }

  lemma FreeNotReserved(view: MapView, reserved: set<Coord>, c: Coord)
    ensures c in FreeCells(view, reserved) ==> c !in reserved
  {}

  /** Each fallback is the loser's best cell among those nobody before it received. */
  lemma {:induction false} FallbackIsBest(losers: seq<ClaimRequest>, view: MapView, reserved: set<Coord>, i: nat,
                                          c: Coord)
    requires i < |losers|
    requires InGrid(c, view.size) && c !in reserved
    requires forall j :: 0 <= j < i ==> Fallbacks(losers, view, reserved)[j].cell != c
    ensures var a := Fallbacks(losers, view, reserved)[i];
            a.reason == Fallback && (a.cell == c || Precedes(view, losers[i].position, false, a.cell, c))
    ensures var a, from := Fallbacks(losers, view, reserved)[i].cell, losers[i].position;
      || view.entropy(a) > view.entropy(c)
      || (view.entropy(a) == view.entropy(c) && DistSquared(from, a) < DistSquared(from, c))
      || (view.entropy(a) == view.entropy(c) && DistSquared(from, a) == DistSquared(from, c)
          && (a.y < c.y || (a.y == c.y && a.x <= c.x)))
  {
    hide Precedes, SelectNextZone, DistSquared;
    var a := FallbackFor(losers[0], view, reserved);
    SelectionIsBest(view, reserved, losers[0].position, false, c);
    var rest := Fallbacks(losers[1..], view, Reserve(reserved, a));
    assert Fallbacks(losers, view, reserved) == [a] + rest;
    if i > 0 {
      assert Fallbacks(losers, view, reserved)[0].cell != c;
      assert forall j :: 0 <= j < i - 1 ==> rest[j] == Fallbacks(losers, view, reserved)[j + 1];
      FallbackIsBest(losers[1..], view, Reserve(reserved, a), i - 1, c);
    }
  }

  // ----- the auction -----

  function Ranked(claims: seq<ClaimRequest>): seq<ClaimRequest> {
    Sort(claims, ClaimLe)
  }

  /** The two best claims are equally early and equally near. */
  predicate Ties(winner: ClaimRequest, runnerUp: ClaimRequest, cell: Coord) {
    && winner.timestampMs == runnerUp.timestampMs
    && DistSquared(winner.position, cell) == DistSquared(runnerUp.position, cell)
  }

  /** The outcome of a contest; None stands for the error raised on an empty list of claims. */
  function ResolveConflict(claims: seq<ClaimRequest>, view: MapView, claimed: set<Coord>): Option<AuctionDecision> {
    if claims == [] then None
    else
      var cell := claims[0].cell;
      if |claims| == 1 then
        Some(AuctionDecision(cell, [ZoneAssignment(claims[0].droneId, cell, Winner, Whole)], SingleClaim))
      else
        var ranked := Ranked(claims);
        var winner, runnerUp := ranked[0], ranked[1];
        if Ties(winner, runnerUp, cell) then
          var split := [ZoneAssignment(winner.droneId, cell, Split, Left),
                        ZoneAssignment(runnerUp.droneId, cell, Split, Right)];
          Some(AuctionDecision(cell, split + Fallbacks(ranked[2..], view, claimed + {cell}), SplitZone))
        else
          var lead := [ZoneAssignment(winner.droneId, cell, Winner, Whole)];
          Some(AuctionDecision(cell, lead + Fallbacks(ranked[1..], view, claimed + {cell}), Precedence))
  }

  ghost predicate SameCell(claims: seq<ClaimRequest>) {
    forall i, j :: 0 <= i < |claims| && 0 <= j < |claims| ==> claims[i].cell == claims[j].cell
  }

  lemma ClaimsStrict(claims: seq<ClaimRequest>)
    requires DistinctDrones(claims)
    ensures Strict(claims, ClaimLe)
  {
    hide DistSquared;
    forall a, b | a in claims && b in claims && ClaimLe(a, b) && ClaimLe(b, a)
      ensures a == b
    {
      var i :| 0 <= i < |claims| && claims[i] == a;
      var j :| 0 <= j < |claims| && claims[j] == b;
      assert a.droneId == b.droneId;
    }
  }

  /** The outcome does not depend on the order in which the claims are listed. */
  lemma ResolveIgnoresOrder(claims: seq<ClaimRequest>, shuffled: seq<ClaimRequest>, view: MapView, claimed: set<Coord>)
    requires DistinctDrones(claims) && SameCell(claims)
    requires multiset(claims) == multiset(shuffled)
    ensures ResolveConflict(claims, view, claimed) == ResolveConflict(shuffled, view, claimed)
  {
    SameElements(claims, shuffled);
    ClaimOrder();
    ClaimsStrict(claims);
    SortPermutation(claims, shuffled, ClaimLe);
    if claims != [] {
      assert shuffled[0] in claims;
      if |claims| == 1 {
        assert claims[0] == shuffled[0];
      }
    }
  }

  /** What a peer votes for: the drone or the split a decision puts first, or the release of a drone's cell. */
  datatype Choice = DroneVote(id: DroneId) | SplitVote | ReleaseVote(id: DroneId)

  function LeadChoice(decision: AuctionDecision): Choice
    requires decision.assignments != []
  {
    var lead := decision.assignments[0];
    if lead.subzone == Whole then DroneVote(lead.droneId) else SplitVote
  }

  /** Peers with different certainty maps and different claimed zones still put the same drone first. */
  lemma LeadIgnoresMap(claims: seq<ClaimRequest>, v: MapView, w: MapView, claimed: set<Coord>, claimed': set<Coord>)
    requires claims != []
    ensures var a, b := ResolveConflict(claims, v, claimed), ResolveConflict(claims, w, claimed');
      && a.Some? && b.Some? && a.value.assignments != [] && b.value.assignments != []
      && a.value.assignments[0] == b.value.assignments[0]
      && LeadChoice(a.value) == LeadChoice(b.value)
  {}

  ghost function DroneIds(assignments: seq<ZoneAssignment>): seq<DroneId> {
    seq(|assignments|, i requires 0 <= i < |assignments| => assignments[i].droneId)
  }

  ghost function Claimants(claims: seq<ClaimRequest>): seq<DroneId> {
    seq(|claims|, i requires 0 <= i < |claims| => claims[i].droneId)
  }

  /** The assignments of the claims that get the contested cell: a split pair, or a single winner. */
  ghost predicate IsLead(lead: seq<ZoneAssignment>, heads: seq<ClaimRequest>, cell: Coord) {
    && |lead| == |heads|
    && (|lead| == 1 || |lead| == 2)
    && (forall i :: 0 <= i < |lead| ==> lead[i].droneId == heads[i].droneId && lead[i].cell == cell)
    && (|lead| == 1 ==> lead[0].reason == Winner && lead[0].subzone == Whole)
    && (|lead| == 2 ==>
          lead[0].reason == lead[1].reason == Split && lead[0].subzone == Left && lead[1].subzone == Right)
  }

  /** A decision is a lead for the best claims followed by the fallbacks of the others. */
  lemma DecisionShape(claims: seq<ClaimRequest>, view: MapView, claimed: set<Coord>)
      returns (lead: seq<ZoneAssignment>, heads: seq<ClaimRequest>, losers: seq<ClaimRequest>)
    requires claims != []
    ensures Ranked(claims) == heads + losers && IsLead(lead, heads, claims[0].cell)
    ensures ResolveConflict(claims, view, claimed).Some?
    ensures ResolveConflict(claims, view, claimed).value.assignments
            == lead + Fallbacks(losers, view, claimed + {claims[0].cell})
  {
    hide DistSquared;
    var ranked, cell := Ranked(claims), claims[0].cell;
    if |claims| == 1 {
      assert ranked == claims;
      heads, losers := claims, [];
      lead := [ZoneAssignment(claims[0].droneId, cell, Winner, Whole)];
    } else if Ties(ranked[0], ranked[1], cell) {
      heads, losers := ranked[..2], ranked[2..];
      lead := [ZoneAssignment(ranked[0].droneId, cell, Split, Left),
               ZoneAssignment(ranked[1].droneId, cell, Split, Right)];
    } else {
      heads, losers := ranked[..1], ranked[1..];
      lead := [ZoneAssignment(ranked[0].droneId, cell, Winner, Whole)];
    }
  }

  /** Assignments follow the ranking, one per claim. */
  lemma AssignmentsFollowRanking(claims: seq<ClaimRequest>, view: MapView, claimed: set<Coord>)
    requires claims != []
    ensures ResolveConflict(claims, view, claimed).Some?
    ensures DroneIds(ResolveConflict(claims, view, claimed).value.assignments) == Claimants(Ranked(claims))
  {
    hide Fallbacks, Ranked, ResolveConflict;
    var lead, heads, losers := DecisionShape(claims, view, claimed);
    FallbackShape(losers, view, claimed + {claims[0].cell});
  }

  lemma RankedBefore(claims: seq<ClaimRequest>, i: nat, j: nat)
    requires i < j < |claims|
    ensures ClaimLe(Ranked(claims)[i], Ranked(claims)[j])
  {
    hide ClaimLe, Sort;
    ClaimOrder();
    SortSorts(claims, ClaimLe);
  }

  lemma ClaimOfDrone(claims: seq<ClaimRequest>, i: nat, c: ClaimRequest)
    requires DistinctDrones(claims) && i < |claims| && c in claims && c.droneId == Ranked(claims)[i].droneId
    ensures c == Ranked(claims)[i]
  {
    hide Sort;
    var r := Ranked(claims)[i];
    SameElements(claims, Ranked(claims));
    assert r in Ranked(claims);
    var m :| 0 <= m < |claims| && claims[m] == c;
    var n :| 0 <= n < |claims| && claims[n] == r;
  }

  /** Claimants are served in this order: the earlier claim; of claims equally early the nearer one; of
      claims equally early and equally near that of the smaller id. */
  lemma ServedInOrder(claims: seq<ClaimRequest>, view: MapView, claimed: set<Coord>, i: nat, j: nat,
                      a: ClaimRequest, b: ClaimRequest)
    requires DistinctDrones(claims) && i < j < |claims| && a in claims && b in claims
    ensures ResolveConflict(claims, view, claimed).Some?
    ensures var assignments := ResolveConflict(claims, view, claimed).value.assignments;
      && |assignments| == |claims|
      && (assignments[i].droneId == a.droneId && assignments[j].droneId == b.droneId ==>
            || a.timestampMs < b.timestampMs
            || (a.timestampMs == b.timestampMs && DistSquared(a.position, a.cell) < DistSquared(b.position, b.cell))
            || (a.timestampMs == b.timestampMs && DistSquared(a.position, a.cell) == DistSquared(b.position, b.cell)
                && a.droneId < b.droneId))
  {
    hide DistSquared, Ranked, ResolveConflict, Fallbacks;
    AssignmentsFollowRanking(claims, view, claimed);
    var assignments := ResolveConflict(claims, view, claimed).value.assignments;
    assert |DroneIds(assignments)| == |Claimants(Ranked(claims))| == |claims| by {
      RankedLength(claims);
    }
    if assignments[i].droneId == a.droneId && assignments[j].droneId == b.droneId {
      assert DroneIds(assignments)[i] == Claimants(Ranked(claims))[i];
      assert DroneIds(assignments)[j] == Claimants(Ranked(claims))[j];
      ClaimOfDrone(claims, i, a);
      ClaimOfDrone(claims, j, b);
      RankedBefore(claims, i, j);
      DifferentDrones(claims, i, j);
    }
  }

  lemma RankedLength(claims: seq<ClaimRequest>)
    ensures |Ranked(claims)| == |claims|
  {}

  lemma DifferentDrones(claims: seq<ClaimRequest>, i: nat, j: nat)
    requires DistinctDrones(claims) && i < j < |claims|
    ensures Ranked(claims)[i].droneId != Ranked(claims)[j].droneId
  {
    hide Sort;
    var ranked := Ranked(claims);
    assert Distinct(claims);
    PermutedDistinct(claims, ranked);
    SameElements(claims, ranked);
    assert ranked[i] in ranked && ranked[j] in ranked;
    var m :| 0 <= m < |claims| && claims[m] == ranked[i];
    var n :| 0 <= n < |claims| && claims[n] == ranked[j];
  }

  /** Every claimant is served once. */
  lemma EveryClaimantServed(claims: seq<ClaimRequest>, view: MapView, claimed: set<Coord>, c: ClaimRequest)
    requires c in claims
    ensures ResolveConflict(claims, view, claimed).Some?
    ensures exists i :: 0 <= i < |ResolveConflict(claims, view, claimed).value.assignments|
                        && ResolveConflict(claims, view, claimed).value.assignments[i].droneId == c.droneId
  {
    hide Ranked, ResolveConflict;
    AssignmentsFollowRanking(claims, view, claimed);
    var assignments := ResolveConflict(claims, view, claimed).value.assignments;
    RankedElements(claims, c);
    var i :| 0 <= i < |Ranked(claims)| && Ranked(claims)[i] == c;
    assert |DroneIds(assignments)| == |Claimants(Ranked(claims))|;
    assert DroneIds(assignments)[i] == Claimants(Ranked(claims))[i];
  }

  lemma RankedElements(claims: seq<ClaimRequest>, c: ClaimRequest)
    ensures c in claims <==> c in Ranked(claims)
  {
    SameElements(claims, Ranked(claims));
  }

  /** The contested cell is split between the first two claimants exactly when their claims are equally early
      and they are equally near; otherwise the first has it, and the second is a loser like the rest. */
  lemma SplitExactly(claims: seq<ClaimRequest>, view: MapView, claimed: set<Coord>, a: ClaimRequest, b: ClaimRequest)
    requires DistinctDrones(claims) && |claims| > 1 && a in claims && b in claims
    ensures ResolveConflict(claims, view, claimed).Some?
    ensures var decision, cell := ResolveConflict(claims, view, claimed).value, claims[0].cell;
      var first, second := decision.assignments[0], decision.assignments[1];
      var even := a.timestampMs == b.timestampMs && DistSquared(a.position, cell) == DistSquared(b.position, cell);
      && |decision.assignments| == |claims|
      && (first.droneId == a.droneId && second.droneId == b.droneId ==>
            && (even ==> first == ZoneAssignment(a.droneId, cell, Split, Left)
                         && second == ZoneAssignment(b.droneId, cell, Split, Right) && decision.rationale == SplitZone)
            && (!even ==> first == ZoneAssignment(a.droneId, cell, Winner, Whole)
                          && second.reason in {Fallback, Idle} && decision.rationale == Precedence))
  {
    hide DistSquared, Ranked, Fallbacks;
    var ranked, cell := Ranked(claims), claims[0].cell;
    RankedLength(claims);
    var assignments := ResolveConflict(claims, view, claimed).value.assignments;
    AssignmentsFollowRanking(claims, view, claimed);
    assert |DroneIds(assignments)| == |Claimants(ranked)| == |claims|;
    assert DroneIds(assignments)[0] == Claimants(ranked)[0] && DroneIds(assignments)[1] == Claimants(ranked)[1];
    FallbackShape(ranked[1..], view, claimed + {cell});
    if assignments[0].droneId == a.droneId && assignments[1].droneId == b.droneId {
      ClaimOfDrone(claims, 0, a);
      ClaimOfDrone(claims, 1, b);
    }
  }

  /** Two active assignments on one cell are always the two halves of a split. */
  ghost predicate NoDoubleBooking(assignments: seq<ZoneAssignment>) {
    forall i, j :: 0 <= i < j < |assignments| && assignments[i].reason != Idle && assignments[j].reason != Idle
                   && assignments[i].cell == assignments[j].cell ==>
      assignments[i].subzone == Left && assignments[j].subzone == Right
  }

  ghost predicate Booked(assignments: seq<ZoneAssignment>, cell: Coord, size: nat, claimed: set<Coord>) {
    && |assignments| > 0 && assignments[0].cell == cell && assignments[0].reason in {Winner, Split}
    && NoDoubleBooking(assignments)
    && forall i :: 0 < i < |assignments| && assignments[i].reason != Idle && assignments[i].cell != cell ==>
         (InGrid(assignments[i].cell, size) && assignments[i].cell !in claimed)
  }

  /** The contested cell goes to one drone or to a left/right pair; everybody else who gets a cell gets
      one of their own, outside the zones claimed before. */
  lemma AuctionOutcome(claims: seq<ClaimRequest>, view: MapView, claimed: set<Coord>)
    requires claims != []
    ensures ResolveConflict(claims, view, claimed).Some?
    ensures var decision := ResolveConflict(claims, view, claimed).value;
      && |decision.assignments| == |claims| && decision.cell == claims[0].cell
      && Booked(decision.assignments, decision.cell, view.size, claimed)
  {
    hide Fallbacks, Sort, Ties;
    var lead, heads, losers := DecisionShape(claims, view, claimed);
    var cell := claims[0].cell;
    assert |Ranked(claims)| == |claims|;
    assert ResolveConflict(claims, view, claimed).value.cell == cell;
    hide Ranked, ResolveConflict;
    FallbackShape(losers, view, claimed + {cell});
    LeadThenFallbacks(lead, heads, Fallbacks(losers, view, claimed + {cell}), losers, cell, view, claimed);
  }

  lemma LeadThenFallbacks(lead: seq<ZoneAssignment>, heads: seq<ClaimRequest>, fallback: seq<ZoneAssignment>,
                          losers: seq<ClaimRequest>, cell: Coord, view: MapView, claimed: set<Coord>)
    requires IsLead(lead, heads, cell) && ServedFrom(fallback, losers, view, claimed + {cell})
    ensures Booked(lead + fallback, cell, view.size, claimed)
  {
    hide FreeCells, InGrid;
    var all := lead + fallback;
    assert forall i :: |lead| <= i < |all| ==> all[i] == fallback[i - |lead|];
  }

  /** A claimant is left idle only when every cell of the grid is claimed or handed out before it. */
  lemma IdleAfterExhaustion(claims: seq<ClaimRequest>, view: MapView, claimed: set<Coord>, i: nat, c: Coord)
    requires claims != [] && i < |ResolveConflict(claims, view, claimed).value.assignments|
    requires ResolveConflict(claims, view, claimed).value.assignments[i].reason == Idle
    requires InGrid(c, view.size) && c !in claimed
    ensures exists k :: 0 <= k < i && ResolveConflict(claims, view, claimed).value.assignments[k].cell == c
  {
    hide Fallbacks, Ranked, Precedes, ResolveConflict;
    var lead, heads, losers := DecisionShape(claims, view, claimed);
    var cell := claims[0].cell;
    var fallback := Fallbacks(losers, view, claimed + {cell});
    var assignments := lead + fallback;
    assert assignments[0].cell == cell;
    if c != cell {
      IdleLoser(losers, view, claimed + {cell}, i - |lead|, c);
      var k :| 0 <= k < i - |lead| && fallback[k].cell == c;
      assert assignments[k + |lead|].cell == c;
    }
  }

  lemma IdleLoser(losers: seq<ClaimRequest>, view: MapView, reserved: set<Coord>, i: nat, c: Coord)
    requires i < |losers| && Fallbacks(losers, view, reserved)[i].reason == Idle
    requires InGrid(c, view.size) && c !in reserved
    ensures exists k :: 0 <= k < i && Fallbacks(losers, view, reserved)[k].cell == c
  {
    hide Fallbacks, Precedes;
    if forall k :: 0 <= k < i ==> Fallbacks(losers, view, reserved)[k].cell != c {
      FallbackIsBest(losers, view, reserved, i, c);
    }
  }
}
