/** One drone's state. */
module Drones {
  import opened Basics
  import opened Auction

  datatype Status = IdleStatus | Computing | Claiming | ClaimWon | ClaimLost | Transiting | Searching | StaleStatus

  /** The value of a drone's fields at one moment. */
  datatype Drone = Drone(id: DroneId, position: Coord, status: Status, target: Option<Coord>, claimed: Option<Coord>,
                         subzone: Subzone, alive: bool, reachable: bool, searchedCells: nat)

  predicate Active(d: Drone) {
    d.alive && d.reachable
  }

  function Assigned(d: Drone, c: Coord, subzone: Subzone): Drone {
    d.(target := Some(c), claimed := Some(c), subzone := subzone,
       status := if d.position != c then Transiting else Searching)
  }

  function Cleared(d: Drone): Drone {
    d.(target := None, claimed := None, subzone := Whole, status := if d.alive then IdleStatus else StaleStatus)
  }

  function MarkedStale(d: Drone): Drone {
    d.(alive := false, reachable := false, status := StaleStatus, target := None, claimed := None, subzone := Whole)
  }

  function Revived(d: Drone, c: Coord): Drone {
    d.(alive := true, reachable := true, position := c, status := IdleStatus, target := None, claimed := None,
       subzone := Whole)
  }

  /** One move: along the row first, then along the column. */
  function Stepped(d: Drone): Drone {
    if !d.alive || d.target.None? then d
    else
      var p, t := d.position, d.target.value;
      var moved :=
        if p.x != t.x then Coord(if t.x > p.x then p.x + 1 else p.x - 1, p.y)
        else if p.y != t.y then Coord(p.x, if t.y > p.y then p.y + 1 else p.y - 1)
        else p;
      d.(position := moved, status := if moved == t then Searching else Transiting)
  }

  class DroneState {
    const id: DroneId
    var position: Coord
    var status: Status
    var target: Option<Coord>
    var claimed: Option<Coord>
    var subzone: Subzone
    var alive: bool
    var reachable: bool
    var searchedCells: nat

    function Snapshot(): Drone
      reads this
    {
      Drone(id, position, status, target, claimed, subzone, alive, reachable, searchedCells)
    }

    constructor (id: DroneId, position: Coord)
      ensures Snapshot() == Drone(id, position, IdleStatus, None, None, Whole, true, true, 0)
    {
      this.id := id;
      this.position := position;
      status := IdleStatus;
      target := None;
      claimed := None;
      subzone := Whole;
      alive := true;
      reachable := true;
      searchedCells := 0;
    }

    method SetAssignment(c: Coord, subzone: Subzone)
      modifies this
      ensures Snapshot() == Assigned(old(Snapshot()), c, subzone)
      ensures target == claimed == Some(c) && this.subzone == subzone
      ensures status == if position == c then Searching else Transiting
      ensures position == old(position) && alive == old(alive) && reachable == old(reachable)
      ensures searchedCells == old(searchedCells)
    {
      target := Some(c);
      claimed := Some(c);
      this.subzone := subzone;
      status := if position != c then Transiting else Searching;
    }

    method ClearAssignment()
      modifies this
      ensures Snapshot() == Cleared(old(Snapshot()))
      ensures target.None? && claimed.None? && subzone == Whole && status == if alive then IdleStatus else StaleStatus
      ensures position == old(position) && alive == old(alive) && reachable == old(reachable)
      ensures searchedCells == old(searchedCells)
    {
      target := None;
      claimed := None;
      subzone := Whole;
      status := if alive then IdleStatus else StaleStatus;
    }

    method MarkStale()
      modifies this
      ensures Snapshot() == MarkedStale(old(Snapshot()))
      ensures !alive && !reachable && status == StaleStatus && target.None? && claimed.None? && subzone == Whole
      ensures position == old(position) && searchedCells == old(searchedCells)
    {
      alive := false;
      reachable := false;
      status := StaleStatus;
      target := None;
      claimed := None;
      subzone := Whole;
    }

    method Revive(c: Coord)
      modifies this
      ensures Snapshot() == Revived(old(Snapshot()), c)
      ensures alive && reachable && position == c && status == IdleStatus
      ensures target.None? && claimed.None? && subzone == Whole && searchedCells == old(searchedCells)
    {
      alive := true;
      reachable := true;
      position := c;
      status := IdleStatus;
      target := None;
      claimed := None;
      subzone := Whole;
    }

    method StepTowardsTarget()
      modifies this
      ensures Snapshot() == Stepped(old(Snapshot()))
      ensures !alive || target.None? ==> Snapshot() == old(Snapshot())
      ensures alive && target.Some? && position != old(position) ==>
        Manhattan(position, target.value) == Manhattan(old(position), target.value) - 1
      ensures alive && target.Some? ==>
        && (old(position.x) != target.value.x ==> position.y == old(position.y) && position.x != old(position.x))
        && (old(position.x) == target.value.x ==> position.x == old(position.x))
        && (position == old(position) <==> old(position) == target.value)
        && status == (if position == target.value then Searching else Transiting)
      ensures target == old(target) && claimed == old(claimed) && subzone == old(subzone)
      ensures alive == old(alive) && reachable == old(reachable) && searchedCells == old(searchedCells)
    {
      if !alive || target.None? {
        return;
      }
      var x, y := position.x, position.y;
      var t := target.value;
      if x != t.x {
        x := x + if t.x > x then 1 else -1;
      } else if y != t.y {
        y := y + if t.y > y then 1 else -1;
      }
      position := Coord(x, y);
      status := if position == t then Searching else Transiting;
    }
  }

  /** n moves in a row. */
  function SteppedTimes(d: Drone, n: nat): Drone
    decreases n
  {
    if n == 0 then d else SteppedTimes(Stepped(d), n - 1)
  }

  predicate Between(a: int, x: int, b: int) {
    a <= x <= b || b <= x <= a
  }

  /** A live drone that keeps its target stands on it after exactly as many moves as the Manhattan
      distance, not before, and on the way never leaves the rectangle the two cells span. */
  lemma {:induction false} ArrivesInDistanceMoves(d: Drone, n: nat)
    requires d.alive && d.target.Some?
    ensures var t, at := d.target.value, SteppedTimes(d, n);
      && at.target == d.target && at.alive
      && Between(d.position.x, at.position.x, t.x) && Between(d.position.y, at.position.y, t.y)
      && Manhattan(at.position, t) == (if n <= Manhattan(d.position, t) then Manhattan(d.position, t) - n else 0)
      && (at.position == t <==> n >= Manhattan(d.position, t))
    decreases n
  {
    if n > 0 {
      ArrivesInDistanceMoves(Stepped(d), n - 1);
    }
  }
}
