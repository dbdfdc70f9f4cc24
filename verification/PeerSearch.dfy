/** One peer on its way to its target and searching there, against the steady decay of certainty. */
module PeerSearch {
  import opened Basics
  import opened Auction
  import opened Drones
  import opened Certainty

  const VISITED_THRESHOLD := 0.5

  /** The settings: gain per search tick, certainty that completes a cell, time per tick, the survivor's cell. */
  datatype Quest = Quest(increment: real, completion: real, seconds: real, tickMs: int, survivor: Coord)

  /** What a tick works on. */
  datatype Seeker = Seeker(drone: Drone, cells: Cells, completed: set<Coord>, visited: set<Coord>, found: bool,
                           nowMs: int)

  function Underway(d: Drone): Drone {
    if d.status in {ClaimWon, ClaimLost, Claiming, Computing} && d.target.Some? then
      d.(status := if d.position != d.target.value then Transiting else Searching)
    else d
  }

  /** Moves towards the target, or searches it; a target outside the map raises an error. */
  function Sought(s: Seeker, q: Quest): Seeker {
    if !Active(s.drone) then s
    else
      var d := Underway(s.drone);
      if d.target.None? then s.(drone := d.(status := IdleStatus))
      else if d.position != d.target.value then s.(drone := Stepped(d))
      else if d.target.value !in s.cells then s.(drone := d.(status := Searching))
      else Searched(s.(drone := d.(status := Searching)), q, d.target.value)
  }

  function Searched(s: Seeker, q: Quest, t: Coord): Seeker
    requires t in s.cells
  {
    var cell := Written(s.cells[t], s.cells[t].certainty + q.increment, s.drone.id, s.nowMs);
    var counted := s.drone.(searchedCells := s.drone.searchedCells + 1);
    s.(cells := s.cells[t := cell],
       found := s.found || (t == q.survivor && cell.certainty >= q.completion),
       completed := if cell.certainty >= q.completion then s.completed + {t} else s.completed,
       drone := if cell.certainty >= q.completion then Cleared(counted) else counted,
       visited := if cell.certainty > VISITED_THRESHOLD then s.visited + {t} else s.visited)
  }

  /** The decay of the whole map comes before the move or search of a tick. */
  function Ticked(s: Seeker, q: Quest): Seeker {
    var now := s.nowMs + q.tickMs;
    Sought(s.(nowMs := now, cells := DecayedCells(s.cells, q.seconds, now, {})), q)
  }

  function TickedTimes(s: Seeker, q: Quest, n: nat): Seeker {
    if n == 0 then s else Ticked(TickedTimes(s, q, n - 1), q)
  }

  /** A turn in plain words. A drone off the mesh does nothing; without a target it is idle; away from its
      target it makes one move and touches no cell; on it, it raises that cell's certainty by the increment,
      up to one, and lets go of it once that reaches the completion level. */
  lemma SoughtInWords(s: Seeker, q: Quest)
    requires q.increment >= 0.0 && forall c :: c in s.cells ==> InUnit(s.cells[c])
    ensures var r, d := Sought(s, q), s.drone;
      && r.nowMs == s.nowMs && r.cells.Keys == s.cells.Keys && r.drone.id == d.id
      && r.drone.alive == d.alive && r.drone.reachable == d.reachable
      && (!d.alive || !d.reachable ==> r == s)
      && (d.alive && d.reachable && d.target.None? ==> r == s.(drone := d.(status := IdleStatus)))
      && (d.alive && d.reachable && d.target.Some? && d.position != d.target.value ==>
            r.cells == s.cells && r.completed == s.completed && r.visited == s.visited && r.found == s.found
            && r.drone.searchedCells == d.searchedCells && r.drone.target == d.target && r.drone.claimed == d.claimed
            && Manhattan(r.drone.position, d.target.value) == Manhattan(d.position, d.target.value) - 1)
    ensures var r, d := Sought(s, q), s.drone;
      d.alive && d.reachable && d.target == Some(d.position) && d.position in s.cells ==>
        var t := d.position;
        var sum := s.cells[t].certainty + q.increment;
        var now := if sum > 1.0 then 1.0 else sum;
        && r.cells[t].certainty == now && r.cells[t].lastUpdatedMs == s.nowMs && r.cells[t].updatedBy == d.id
        && (forall c :: c in s.cells && c != t ==> r.cells[c] == s.cells[c])
        && r.drone.searchedCells == d.searchedCells + 1 && r.drone.position == d.position
        && r.completed == s.completed + (if now >= q.completion then {t} else {})
        && r.visited == s.visited + (if now > 0.5 then {t} else {})
        && r.found == (s.found || (t == q.survivor && now >= q.completion))
        && (now >= q.completion ==> r.drone.target.None? && r.drone.claimed.None? && r.drone.status == IdleStatus)
        && (now < q.completion ==> r.drone.target == d.target && r.drone.claimed == d.claimed
                                   && r.drone.status == Searching)
  {}

  class PeerRuntime {
    const drone: DroneState
    const localMap: CertaintyMap
    var completedCells: set<Coord>
    var visitedCells: set<Coord>
    var survivorFound: bool
    var nowMs: int

    ghost predicate Valid()
      reads localMap.grid
    {
      localMap.Valid()
    }

    ghost function State(): Seeker
      reads this, drone, localMap.grid
      requires Valid()
    {
      Seeker(drone.Snapshot(), localMap.View(), completedCells, visitedCells, survivorFound, nowMs)
    }

    constructor (drone: DroneState, localMap: CertaintyMap, nowMs: int)
      requires localMap.Valid()
      ensures Valid() && State() == Seeker(drone.Snapshot(), localMap.View(), {}, {}, false, nowMs)
      ensures this.drone == drone && this.localMap == localMap
    {
      this.drone := drone;
      this.localMap := localMap;
      completedCells, visitedCells, survivorFound := {}, {}, false;
      this.nowMs := nowMs;
    }

    /** Books what a search found. */
    method Book(q: Quest, t: Coord, certainty: real)
      modifies this`survivorFound, this`completedCells, this`visitedCells, drone
      ensures survivorFound
          == (old(survivorFound) || (old(drone.target) == Some(q.survivor) && certainty >= q.completion))
      ensures completedCells == if certainty >= q.completion then old(completedCells) + {t} else old(completedCells)
      ensures visitedCells == if certainty > VISITED_THRESHOLD then old(visitedCells) + {t} else old(visitedCells)
      ensures drone.Snapshot() == if certainty >= q.completion then Cleared(old(drone.Snapshot()))
          else old(drone.Snapshot())
    {
      hide Cleared;
      if drone.target == Some(q.survivor) && certainty >= q.completion {
        survivorFound := true;
      }
      if certainty >= q.completion {
        completedCells := completedCells + {t};
        drone.ClearAssignment();
      }
      if certainty > VISITED_THRESHOLD {
        visitedCells := visitedCells + {t};
      }
    }

    method Search(q: Quest, t: Coord)
      requires Valid() && InGrid(t, localMap.size) && drone.target == Some(t)
      modifies this, drone, localMap.grid
      ensures Valid() && State() == Searched(old(State()), q, t)
    {
      hide Written, Cleared, InUnit, Clamp;
      var ok := localMap.UpdateCell(t, q.increment, drone.id, nowMs);
      drone.searchedCells := drone.searchedCells + 1;
      var certainty := localMap.grid[t.y, t.x].certainty;
      assert certainty == localMap.View()[t].certainty;
      Book(q, t, certainty);
    }

    method MoveAndSearch(q: Quest)
      requires Valid()
      modifies this, drone, localMap.grid
      ensures Valid() && State() == Sought(old(State()), q)
    {
      hide Searched;
      if !drone.alive || !drone.reachable {
        return;
      }
      if drone.status in {ClaimWon, ClaimLost, Claiming, Computing} && drone.target.Some? {
        drone.status := if drone.position != drone.target.value then Transiting else Searching;
      }
      if drone.target.None? {
        drone.status := IdleStatus;
        return;
      }
      if drone.position != drone.target.value {
        drone.StepTowardsTarget();
        return;
      }
      drone.status := Searching;
      if !InGrid(drone.target.value, localMap.size) {
        return;
      }
      Search(q, drone.target.value);
    }

    method Tick(q: Quest)
      requires Valid()
      modifies this, drone, localMap.grid
      ensures Valid() && State() == Ticked(old(State()), q)
    {
      hide Sought, DecayedCells;
      nowMs := nowMs + q.tickMs;
      localMap.DecayAll(q.seconds, nowMs, {});
      MoveAndSearch(q);
    }
  }

  // ----- progress -----

  /** A working drone with a target on its map, whose decay per tick is a fraction. */
  ghost predicate Heading(s: Seeker, q: Quest, t: Coord) {
    && Active(s.drone) && s.drone.target == Some(t) && t in s.cells && InUnit(s.cells[t])
    && 0.0 <= Loss(s.cells[t], q.seconds) <= 1.0
  }

  lemma DecayShrinks(c: real, f: real)
    requires 0.0 <= c <= 1.0 && 0.0 <= f <= 1.0
    ensures 0.0 <= Faded(c, f) <= c
  {
    ProductSign(c, f);
    ProductSign(c, 1.0 - f);
    Distributes(c, 0.0, f);
  }

  lemma DecayedCell(cell: CellState, seconds: real, nowMs: int)
    requires InUnit(cell) && 0.0 <= Loss(cell, seconds) <= 1.0
    ensures InUnit(Decayed(cell, seconds, nowMs)) && Loss(Decayed(cell, seconds, nowMs), seconds) == Loss(cell, seconds)
    ensures Decayed(cell, seconds, nowMs).certainty <= cell.certainty
  {
    hide Faded;
    DecayShrinks(cell.certainty, Loss(cell, seconds));
  }

  /** Until it stands on its target, a tick moves the drone and only lets certainty decay. */
  lemma MovingTick(s: Seeker, q: Quest, t: Coord)
    requires Heading(s, q, t) && s.drone.position != t
    ensures Heading(Ticked(s, q), q, t) && Ticked(s, q).completed == s.completed
    ensures Manhattan(Ticked(s, q).drone.position, t) == Manhattan(s.drone.position, t) - 1
    ensures Loss(Ticked(s, q).cells[t], q.seconds) == Loss(s.cells[t], q.seconds)
    ensures Ticked(s, q).cells[t].certainty <= s.cells[t].certainty
  {
    hide Decayed, InUnit, Loss;
    DecayedCell(s.cells[t], q.seconds, s.nowMs + q.tickMs);
  }

  /** The certainty of the searched cell after one tick. */
  function Gained(c: real, f: real, increment: real): real {
    Clamp(Clamp(Faded(c, f)) + increment)
  }

  lemma SearchedCell(cell: CellState, q: Quest, author: DroneId, nowMs: int)
    ensures var kept := Decayed(cell, q.seconds, nowMs);
      Written(kept, kept.certainty + q.increment, author, nowMs).certainty
      == Gained(cell.certainty, Loss(cell, q.seconds), q.increment)
    ensures InUnit(Written(cell, cell.certainty + q.increment, author, nowMs))
    ensures Loss(Written(cell, cell.certainty + q.increment, author, nowMs), q.seconds) == Loss(cell, q.seconds)
    ensures Loss(Decayed(cell, q.seconds, nowMs), q.seconds) == Loss(cell, q.seconds)
  {
    hide Clamp, Faded;
    assert InUnit(Written(cell, cell.certainty + q.increment, author, nowMs)) by {
      ClampInUnit(cell.certainty + q.increment);
    }
  }

  lemma ClampInUnit(c: real)
    ensures 0.0 <= Clamp(c) <= 1.0
  {}

  lemma SearchingTick(s: Seeker, q: Quest, t: Coord)
    requires Heading(s, q, t) && s.drone.position == t
    ensures var c := Gained(s.cells[t].certainty, Loss(s.cells[t], q.seconds), q.increment);
      && t in Ticked(s, q).cells && Ticked(s, q).cells[t].certainty == c
      && Ticked(s, q).completed == (if c >= q.completion then s.completed + {t} else s.completed)
      && (c < q.completion ==> Heading(Ticked(s, q), q, t) && Ticked(s, q).drone.position == t)
    ensures Loss(Ticked(s, q).cells[t], q.seconds) == Loss(s.cells[t], q.seconds)
  {
    hide Gained, InUnit, Clamp, Faded, Loss;
    var now := s.nowMs + q.tickMs;
    SearchedCell(s.cells[t], q, s.drone.id, now);
    SearchedCell(Decayed(s.cells[t], q.seconds, now), q, s.drone.id, now);
  }

  /** Each search tick gains at least the increment less the decay at the completion level. */
  lemma GainsSteadily(c: real, f: real, increment: real, completion: real)
    requires 0.0 <= c <= 1.0 && 0.0 <= f <= 1.0 && completion <= 1.0 && increment > completion * f
    ensures c >= completion || Gained(c, f, increment) >= completion
            || Gained(c, f, increment) >= c + (increment - completion * f)
    ensures c >= completion ==> Gained(c, f, increment) >= completion
  {
    hide Clamp;
    DecayShrinks(c, f);
    KeptAtLeast(c, f, completion);
    ClampedGain(Faded(c, f), if c < completion then c else completion, completion * f, increment, completion);
  }

  lemma KeptAtLeast(c: real, f: real, completion: real)
    requires 0.0 <= f <= 1.0
    ensures Faded(c, f) >= (if c < completion then c else completion) - completion * f
  {
    if c < completion {
      ProductSign(completion - c, f);
      Distributes(completion, c, f);
      Distributes(c, 0.0, f);
    } else {
      ProductSign(c - completion, 1.0 - f);
      Distributes(c, completion, 1.0 - f);
      Distributes(completion, 0.0, f);
    }
  }

  lemma ClampedGain(kept: real, least: real, loss: real, increment: real, completion: real)
    requires 0.0 <= kept <= 1.0 && kept >= least - loss && completion <= 1.0
    ensures var gained := Clamp(Clamp(kept) + increment);
      gained >= completion || gained >= least + (increment - loss)
  {}

  lemma {:induction false} CompletedStays(s: Seeker, q: Quest, m: nat, n: nat, t: Coord)
    requires m <= n && t in TickedTimes(s, q, m).completed
    ensures t in TickedTimes(s, q, n).completed
    decreases n
  {
    if m < n {
      CompletedStays(s, q, m, n - 1, t);
    }
  }

  /** The drone stands on its target after exactly as many ticks as the distance, and nothing is completed before. */
  lemma {:induction false} ArrivesOnTime(s: Seeker, q: Quest, t: Coord, n: nat)
    requires Heading(s, q, t) && n <= Manhattan(s.drone.position, t)
    ensures var u := TickedTimes(s, q, n);
      && Heading(u, q, t) && u.completed == s.completed && Loss(u.cells[t], q.seconds) == Loss(s.cells[t], q.seconds)
      && Manhattan(u.drone.position, t) == Manhattan(s.drone.position, t) - n
      && u.cells[t].certainty <= s.cells[t].certainty
  {
    hide Heading, Ticked;
    if n > 0 {
      ArrivesOnTime(s, q, t, n - 1);
      var u := TickedTimes(s, q, n - 1);
      assert u.drone.position != t;
      MovingTick(u, q, t);
    }
  }

  lemma {:induction false} SearchGrows(s: Seeker, q: Quest, t: Coord, k: nat)
    requires Heading(s, q, t) && s.drone.position == t && q.completion <= 1.0
    requires q.increment > q.completion * Loss(s.cells[t], q.seconds)
    ensures var u := TickedTimes(s, q, k);
      || t in u.completed
      || (&& Heading(u, q, t) && u.drone.position == t && Loss(u.cells[t], q.seconds) == Loss(s.cells[t], q.seconds)
          && (k > 0 ==> u.cells[t].certainty < q.completion)
          && u.cells[t].certainty >= k as real * (q.increment - q.completion * Loss(s.cells[t], q.seconds)))
  {
    hide Ticked, Gained, Loss;
    var f := Loss(s.cells[t], q.seconds);
    var gain := q.increment - q.completion * f;
    if k > 0 {
      SearchGrows(s, q, t, k - 1);
      var u := TickedTimes(s, q, k - 1);
      if t in u.completed {
        CompletedStays(s, q, k - 1, k, t);
      } else {
        SearchingTick(u, q, t);
        GainsSteadily(u.cells[t].certainty, f, q.increment, q.completion);
        assert k as real * gain == (k - 1) as real * gain + gain;
      }
    }
  }

  lemma CompletesAtLoss(s: Seeker, q: Quest, t: Coord, ticks: nat)
    requires Heading(s, q, t) && q.completion <= 1.0
    requires q.increment > q.completion * Loss(s.cells[t], q.seconds)
    requires ticks > 0
    requires ticks as real * (q.increment - q.completion * Loss(s.cells[t], q.seconds)) >= q.completion
    ensures t in TickedTimes(s, q, Manhattan(s.drone.position, t) + ticks).completed
  {
    hide Heading, Ticked;
    var d := Manhattan(s.drone.position, t);
    ArrivesOnTime(s, q, t, d);
    var u := TickedTimes(s, q, d);
    SearchGrows(u, q, t, ticks);
    TicksAdd(s, q, d, ticks);
  }

  /** A drone at distance D completes its target within D moves and as many search ticks as it takes to
      gain the completion level, at the increment less the worst decay per tick. */
  lemma CompletesInTime(s: Seeker, q: Quest, t: Coord, ticks: nat)
    requires Heading(s, q, t) && q.completion <= 1.0
    requires q.increment > q.completion * (s.cells[t].decayRate * q.seconds)
    requires ticks > 0
    requires ticks as real * (q.increment - q.completion * (s.cells[t].decayRate * q.seconds)) >= q.completion
    ensures t in TickedTimes(s, q, Manhattan(s.drone.position, t) + ticks).completed
  {
    assert Loss(s.cells[t], q.seconds) == s.cells[t].decayRate * q.seconds;
    hide Heading, Ticked, TickedTimes, Loss;
    CompletesAtLoss(s, q, t, ticks);
  }

  lemma {:induction false} TicksAdd(s: Seeker, q: Quest, m: nat, n: nat)
    ensures TickedTimes(TickedTimes(s, q, m), q, n) == TickedTimes(s, q, m + n)
    decreases n
  {
    if n > 0 {
      TicksAdd(s, q, m, n - 1);
    }
  }

  lemma {:induction false} NeverCompletes(s: Seeker, q: Quest, t: Coord, n: nat)
    requires Heading(s, q, t) && t !in s.completed && Loss(s.cells[t], q.seconds) < 1.0
    requires 0.0 < q.completion <= 1.0 && s.cells[t].certainty < q.completion
    requires q.increment <= q.completion * Loss(s.cells[t], q.seconds)
    ensures var u := TickedTimes(s, q, n);
      Heading(u, q, t) && t !in u.completed && u.cells[t].certainty < q.completion
      && Loss(u.cells[t], q.seconds) == Loss(s.cells[t], q.seconds)
  {
    hide Ticked, Gained, Loss;
    if n > 0 {
      NeverCompletes(s, q, t, n - 1);
      var u := TickedTimes(s, q, n - 1);
      if u.drone.position == t {
        SearchingTick(u, q, t);
        StaysBelow(u.cells[t].certainty, Loss(s.cells[t], q.seconds), q.increment, q.completion);
      } else {
        MovingTick(u, q, t);
      }
    }
  }

  lemma StaysBelow(c: real, f: real, increment: real, completion: real)
    requires 0.0 <= c < completion <= 1.0 && 0.0 <= f < 1.0 && increment <= completion * f
    ensures Gained(c, f, increment) < completion
  {
    hide Clamp;
    DecayShrinks(c, f);
    ProductSign(completion - c, 1.0 - f);
    Distributes(completion, c, 1.0 - f);
    Distributes(completion, c, f);
    ClampedBelow(c * (1.0 - f), completion * f, increment, completion);
  }

  lemma ClampedBelow(kept: real, loss: real, increment: real, completion: real)
    requires 0.0 <= kept <= 1.0 && kept < completion - loss && increment <= loss && completion > 0.0
    ensures Clamp(Clamp(kept) + increment) < completion
  {}

  /** A cell below the completion level is ever completed exactly when the increment beats the decay at
      that level. */
  lemma CompletesExactly(s: Seeker, q: Quest, t: Coord)
    requires Heading(s, q, t) && t !in s.completed && s.cells[t].decayRate * q.seconds < 1.0
    requires 0.0 < q.completion <= 1.0 && s.cells[t].certainty < q.completion
    ensures (exists n :: t in TickedTimes(s, q, n).completed)
            <==> q.increment > q.completion * (s.cells[t].decayRate * q.seconds)
  {
    hide Ticked, TickedTimes;
    var loss := s.cells[t].decayRate * q.seconds;
    assert loss == Loss(s.cells[t], q.seconds);
    hide Loss;
    var gain := q.increment - q.completion * loss;
    if gain > 0.0 {
      var ticks := EnoughTicks(q.completion, gain);
      CompletesInTime(s, q, t, ticks);
    } else {
      forall n: nat ensures t !in TickedTimes(s, q, n).completed {
        NeverCompletes(s, q, t, n);
      }
    }
  }

  lemma EnoughTicks(level: real, gain: real) returns (ticks: nat)
    requires level > 0.0 && gain > 0.0
    ensures ticks > 0 && ticks as real * gain >= level
  {
    var ratio := level / gain;
    assert ratio > 0.0 && ratio * gain == level;
    ticks := ratio.Floor + 1;
    ProductSign(ticks as real - ratio, gain);
    Distributes(ticks as real, ratio, gain);
  }
}
