/** What a peer keeps about claims and rounds, as a value, and how each event changes it. */
module ClaimLedger {
  import opened Basics
  import opened Sorting
  import opened Auction
  import opened Drones
  import opened Heartbeats

  type ClaimId = int

  const MAX_TRACKED: nat := 500

  datatype RoundPayload = RoundPayload(id: int, cell: Coord, assignments: seq<ZoneAssignment>,
                                       releasedBy: Option<DroneId>)

  // ----- the three indexes of pending claims -----

  datatype Index = Index(pending: map<ClaimId, ClaimRequest>, timestamps: map<ClaimId, int>,
                         byCell: map<Coord, seq<ClaimId>>)

  function ListedAt(byCell: map<Coord, seq<ClaimId>>, cell: Coord): seq<ClaimId> {
    if cell in byCell then byCell[cell] else []
  }

  /** The indexes agree: same keys, same times, and every pending claim is listed under its cell.
      The lists may also name claims that are gone or have moved. */
  ghost predicate Agree(x: Index) {
    && x.pending.Keys == x.timestamps.Keys
    && forall id :: id in x.pending ==>
         && x.pending[id].claimId == id && x.timestamps[id] == x.pending[id].timestampMs
         && id in ListedAt(x.byCell, x.pending[id].cell)
  }

  function Filed(x: Index, claim: ClaimRequest): Index {
    Index(x.pending[claim.claimId := claim], x.timestamps[claim.claimId := claim.timestampMs],
          x.byCell[claim.cell := ListedAt(x.byCell, claim.cell) + [claim.claimId]])
  }

  function Evicted(x: Index, cell: Coord): Index {
    var ids := Elements(ListedAt(x.byCell, cell));
    Index(x.pending - ids, x.timestamps - ids, x.byCell - {cell})
  }

  /** The list without the first mention of each of some ids. */
  function Unlisted(ids: seq<ClaimId>, gone: set<ClaimId>): (r: seq<ClaimId>)
    ensures forall id :: id !in gone ==> (id in r <==> id in ids)
  {
    if ids == [] then []
    else
      assert ids == [ids[0]] + ids[1..];
      if ids[0] in gone then Unlisted(ids[1..], gone - {ids[0]}) else [ids[0]] + Unlisted(ids[1..], gone)
  }

  function Dropped(x: Index, gone: set<ClaimId>): Index {
    Index(x.pending - gone, x.timestamps - gone, map c | c in x.byCell :: Unlisted(x.byCell[c], gone))
  }

  lemma FiledAgrees(x: Index, claim: ClaimRequest)
    requires Agree(x)
    ensures Agree(Filed(x, claim))
  {
    var y := Filed(x, claim);
    assert y.pending.Keys == x.pending.Keys + {claim.claimId};
    assert y.timestamps.Keys == x.timestamps.Keys + {claim.claimId};
  }

  /** An eviction leaves no claim on its cell. */
  lemma EvictedAgrees(x: Index, cell: Coord)
    requires Agree(x)
    ensures Agree(Evicted(x, cell))
    ensures forall id :: id in Evicted(x, cell).pending ==> Evicted(x, cell).pending[id].cell != cell
  {
    var y := Evicted(x, cell);
    var ids := Elements(ListedAt(x.byCell, cell));
    assert y.pending.Keys == x.pending.Keys - ids;
    assert y.timestamps.Keys == x.timestamps.Keys - ids;
    forall id | id in y.pending ensures y.pending[id].cell != cell {
      assert id in ListedAt(x.byCell, x.pending[id].cell);
    }
  }

  lemma DroppedAgrees(x: Index, gone: set<ClaimId>)
    requires Agree(x)
    ensures Agree(Dropped(x, gone))
  {
    var y := Dropped(x, gone);
    assert y.pending.Keys == x.pending.Keys - gone;
    assert y.timestamps.Keys == x.timestamps.Keys - gone;
    forall id | id in y.pending ensures id in ListedAt(y.byCell, y.pending[id].cell) {
      assert id in ListedAt(x.byCell, x.pending[id].cell);
    }
  }

  // ----- bounded memories -----

  ghost predicate KeepsLargest(s: set<int>, t: set<int>, cap: nat) {
    && t <= s && |t| == (if |s| <= cap then |s| else cap)
    && forall x, y :: x in s && x !in t && y in t ==> x < y
  }

  lemma Member<T>(s: set<T>) returns (x: T)
    requires s != {}
    ensures x in s
  {
    x :| x in s;
  }

  lemma LeastExists(s: set<int>)
    requires s != {}
    ensures exists x :: x in s && forall y :: y in s ==> x <= y
    decreases |s|
  {
    var x := Member(s);
    var rest := s - {x};
    if rest == {} {
      assert s == {x};
    } else {
      LeastExists(rest);
      var m :| m in rest && forall y :: y in rest ==> m <= y;
      var least := if m < x then m else x;
      forall y | y in s ensures least <= y {
        assert y == x || y in rest;
      }
    }
  }

  /** A memory trimmed to its largest entries. */
  ghost function Largest(s: set<int>, cap: nat): (t: set<int>)
    ensures KeepsLargest(s, t, cap)
    decreases |s|
  {
    if |s| <= cap then s
    else
      LeastExists(s);
      var x :| x in s && forall y :: y in s ==> x <= y;
      Largest(s - {x}, cap)
  }

  /** There is only one way to keep the largest entries. */
  lemma LargestUnique(s: set<int>, t: set<int>, u: set<int>, cap: nat)
    requires KeepsLargest(s, t, cap) && KeepsLargest(s, u, cap)
    ensures t == u
  {
    assert t == (t * u) + (t - u) && u == (t * u) + (u - t);
    assert |t - u| == |u - t|;
    if t - u != {} {
      var x := Member(t - u);
      var y := Member(u - t);
      assert false;
    }
  }

  ghost function Above(s: set<int>, x: int): set<int> {
    set y | y in s && y > x
  }

  /** An entry once made is still there, or at least `cap` greater ones are. */
  ghost predicate Remembers(entered: set<int>, s: set<int>, cap: nat) {
    forall x :: x in entered ==> x in s || |Above(s, x)| >= cap
  }

  lemma RemembersMore(entered: set<int>, s: set<int>, more: set<int>, cap: nat)
    requires Remembers(entered, s, cap)
    ensures Remembers(entered + more, s + more, cap)
  {
    forall x | x in entered + more ensures x in s + more || |Above(s + more, x)| >= cap {
      SubsetSize(Above(s, x), Above(s + more, x));
    }
  }

  lemma TrimKeepsAbove(s: set<int>, cap: nat, x: int)
    requires x in s || |Above(s, x)| >= cap
    ensures x in Largest(s, cap) || |Above(Largest(s, cap), x)| >= cap
  {
    var t := Largest(s, cap);
    if x !in t {
      SubsetSize(Above(s, x), s);
      if y :| y in t && y <= x {
        assert Above(s, x) <= Above(t, x);
        SubsetSize(Above(s, x), Above(t, x));
      } else {
        assert Above(t, x) == t;
        if |s| <= cap {
          SubsetSize(t, s);
        }
      }
    }
  }

  lemma RemembersTrimmed(entered: set<int>, s: set<int>, cap: nat)
    requires Remembers(entered, s, cap)
    ensures Remembers(entered, Largest(s, cap), cap)
  {
    forall x | x in entered ensures x in Largest(s, cap) || |Above(Largest(s, cap), x)| >= cap {
      TrimKeepsAbove(s, cap, x);
    }
  }

  // ----- the peer's view and its events -----

  /** Claims, rounds, drones as the peer sees them, the beats it heard and the drones it found silent, and
      the rounds it has published. */
  datatype Ledger = Ledger(
    index: Index, resolved: set<ClaimId>, processed: set<int>, roundId: int, drones: map<DroneId, Drone>,
    auctions: nat, released: set<DroneId>, staleSince: map<DroneId, int>, heard: map<DroneId, int>,
    silent: set<DroneId>, outbox: seq<RoundPayload>)

  datatype Event =
    | BeatHeard(id: DroneId, position: Coord, timestampMs: int)
    | OwnBeat(nowMs: int)
    | Rejoined(id: DroneId, timestampMs: int)
    | StateHeard(state: Drone)
    | OwnDroneChanged(drone: Drone)
    | ClaimHeard(claim: ClaimRequest)
    | ClaimMade(claim: ClaimRequest)
    | RoundHeard(round: RoundPayload, nowMs: int)
    | SilenceSurveyed(nowMs: int, timeoutMs: int)
    | SilenceFound(late: seq<DroneId>, nowMs: int, timeoutMs: int)
    | ClaimsResolved(groups: seq<seq<ClaimRequest>>, view: MapView, delayMs: int, nowMs: int)

  function Known(drones: map<DroneId, Drone>, id: DroneId): (d: Drone)
  {
    if id in drones then drones[id]
    else Drone(id, Coord(0, 0), IdleStatus, None, None, Whole, true, true, 0)
  }

  function Claimed(drones: map<DroneId, Drone>): set<Coord> {
    set id | id in drones && Active(drones[id]) && drones[id].claimed.Some? :: drones[id].claimed.value
  }

  function AssignOne(drones: map<DroneId, Drone>, a: ZoneAssignment, me: DroneId): map<DroneId, Drone> {
    var d := Known(drones, a.droneId);
    var after := if a.reason == Idle then Cleared(d) else Assigned(d, a.cell, a.subzone);
    drones[a.droneId := if a.reason != Idle && a.droneId == me then after.(status := ClaimWon) else after]
  }

  function AssignAll(drones: map<DroneId, Drone>, assignments: seq<ZoneAssignment>, me: DroneId): map<DroneId, Drone> {
    if assignments == [] then drones
    else AssignOne(AssignAll(drones, assignments[..|assignments| - 1], me), assignments[|assignments| - 1], me)
  }

  /** What a round changes when it is new. */
  function Effect(s: Ledger, round: RoundPayload, me: DroneId, nowMs: int): Ledger {
    var freed :=
      if round.releasedBy.None? then s
      else s.(drones := s.drones[round.releasedBy.value := MarkedStale(Known(s.drones, round.releasedBy.value))],
              staleSince := s.staleSince[round.releasedBy.value := nowMs]);
    freed.(processed := s.processed + {round.id},
           roundId := if round.id > s.roundId then round.id else s.roundId,
           auctions := s.auctions + (if |round.assignments| > 1 then 1 else 0),
           index := Evicted(s.index, round.cell),
           drones := AssignAll(freed.drones, round.assignments, me))
  }

  function ApplyRound(s: Ledger, round: RoundPayload, me: DroneId, nowMs: int): Ledger {
    if round.id in s.processed then s else Effect(s, round, me, nowMs)
  }

  /** Publishes a round under the next number, and applies it like a round heard from another peer. */
  function Announce(s: Ledger, round: RoundPayload, me: DroneId, nowMs: int): Ledger {
    ApplyRound(s.(roundId := round.id, outbox := s.outbox + [round]), round, me, nowMs)
  }

  function SettleOne(s: Ledger, group: seq<ClaimRequest>, view: MapView, me: DroneId, nowMs: int): Ledger {
    var decision := ResolveConflict(group, view, Claimed(s.drones));
    if decision.None? then s
    else
      var round := RoundPayload(s.roundId + 1, decision.value.cell, decision.value.assignments, None);
      var after := Announce(s, round, me, nowMs);
      after.(resolved := after.resolved + IdsOf(group))
  }

  function SettleAll(s: Ledger, groups: seq<seq<ClaimRequest>>, view: MapView, me: DroneId, nowMs: int): Ledger {
    if groups == [] then s
    else SettleOne(SettleAll(s, groups[..|groups| - 1], view, me, nowMs), groups[|groups| - 1], view, me, nowMs)
  }

  /** One drone found silent: its cell is released by a round the first time, and it is marked stale. */
  function SilenceOne(s: Ledger, id: DroneId, me: DroneId, nowMs: int): Ledger {
    if id == me then s
    else
      var d := Known(s.drones, id);
      var met := s.(drones := s.drones[id := d]);
      if !d.alive then met
      else
        var freed :=
          if id !in s.released && d.claimed.Some? then
            Announce(met, RoundPayload(s.roundId + 1, d.claimed.value, [], Some(id)), me, nowMs)
              .(released := s.released + {id})
          else met;
        freed.(drones := freed.drones[id := MarkedStale(Known(freed.drones, id))],
               staleSince := freed.staleSince[id := nowMs])
  }

  function SilenceAll(s: Ledger, late: seq<DroneId>, me: DroneId, nowMs: int): Ledger {
    if late == [] then s
    else SilenceOne(SilenceAll(s, late[..|late| - 1], me, nowMs), late[|late| - 1], me, nowMs)
  }

  function IdsOf(claims: seq<ClaimRequest>): set<ClaimId> {
    set k | 0 <= k < |claims| :: claims[k].claimId
  }

  function Expired(x: Index, delayMs: int, nowMs: int): set<ClaimId> {
    set id | id in x.timestamps && nowMs - x.timestamps[id] > 2 * delayMs
  }

  function Unexpired(s: Ledger, delayMs: int, nowMs: int): Ledger {
    s.(index := Dropped(s.index, Expired(s.index, delayMs, nowMs)))
  }

  /** The claims old enough to be resolved and not resolved before. */
  function Mature(s: Ledger, delayMs: int, nowMs: int): set<ClaimRequest> {
    set id | id in s.index.pending && s.index.pending[id].timestampMs <= nowMs - delayMs
             && s.index.pending[id].claimId !in s.resolved :: s.index.pending[id]
  }

  ghost function Swept(s: Ledger): Ledger {
    s.(index := Dropped(s.index, s.index.pending.Keys * s.resolved),
       processed := Largest(s.processed, MAX_TRACKED),
       resolved := Largest(s.resolved, MAX_TRACKED))
  }

  /** The groups are the mature claims, gathered by cell in some order, cells ascending. */
  ghost predicate Grouped(mature: set<ClaimRequest>, groups: seq<seq<ClaimRequest>>) {
    && (forall g :: 0 <= g < |groups| ==> groups[g] != [] && Distinct(groups[g]) && SameCell(groups[g]))
    && (forall g, h :: 0 <= g < h < |groups| ==>
          TupleLe(groups[g][0].cell, groups[h][0].cell) && groups[g][0].cell != groups[h][0].cell)
    && forall c :: c in mature <==> exists g :: 0 <= g < |groups| && c in groups[g]
  }

  /** The drones found silent: the overdue ones, and those found silent before that have not beaten since. */
  function Late(s: Ledger, nowMs: int, timeoutMs: int): set<DroneId> {
    Overdue(s.heard, nowMs, timeoutMs) + (s.silent * s.heard.Keys)
  }

  /** A beat is recorded, and ends silence. */
  function Beating(s: Ledger, id: DroneId, timestampMs: int): Ledger {
    s.(heard := s.heard[id := timestampMs], silent := s.silent - {id})
  }

  ghost predicate Possible(s: Ledger, e: Event) {
    && (e.ClaimsResolved? ==> Grouped(Mature(Unexpired(s, e.delayMs, e.nowMs), e.delayMs, e.nowMs), e.groups))
    && (e.SilenceFound? ==> Distinct(e.late) && Elements(e.late) == Late(s, e.nowMs, e.timeoutMs))
  }

  ghost function After(s: Ledger, e: Event, me: DroneId): Ledger {
    match e
    case BeatHeard(id, position, timestampMs) =>
      Beating(s, id, timestampMs)
        .(drones := s.drones[id := Known(s.drones, id).(position := position, alive := true, reachable := true)],
          staleSince := s.staleSince - {id})
    case OwnBeat(nowMs) => Beating(s, me, nowMs)
    case Rejoined(id, timestampMs) =>
      Beating(s, id, timestampMs).(drones := s.drones[id := Known(s.drones, id).(alive := true, reachable := true)])
    case StateHeard(state) => s.(drones := s.drones[state.id := state.(subzone := Known(s.drones, state.id).subzone)])
    case OwnDroneChanged(drone) => s.(drones := s.drones[me := drone])
    case ClaimHeard(claim) =>
      if claim.claimId in s.resolved then s
      else s.(index := Filed(s.index, claim),
              drones := s.drones[claim.droneId :=
                Known(s.drones, claim.droneId).(position := claim.position, status := Claiming)])
    case ClaimMade(claim) => s.(index := Filed(s.index, claim))
    case RoundHeard(round, nowMs) => ApplyRound(s, round, me, nowMs)
    case SilenceSurveyed(nowMs, timeoutMs) => s.(silent := Late(s, nowMs, timeoutMs))
    case SilenceFound(late, nowMs, _) => SilenceAll(s.(silent := Elements(late)), late, me, nowMs)
    case ClaimsResolved(groups, view, delayMs, nowMs) =>
      Swept(SettleAll(Unexpired(s, delayMs, nowMs), groups, view, me, nowMs))
  }

  function Start(): Ledger {
    Ledger(Index(map[], map[], map[]), {}, {}, 0, map[], 0, {}, map[], map[], {}, [])
  }

  ghost function RunFrom(s: Ledger, events: seq<Event>, me: DroneId): Ledger {
    if events == [] then s else After(RunFrom(s, events[..|events| - 1], me), events[|events| - 1], me)
  }

  ghost predicate AllPossible(s: Ledger, events: seq<Event>, me: DroneId) {
    events == [] ||
    (AllPossible(s, events[..|events| - 1], me)
        && Possible(RunFrom(s, events[..|events| - 1], me), events[|events| - 1]))
  }
}
