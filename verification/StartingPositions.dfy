/** Where the drones of a swarm start: spread around the border of the grid. */
module StartingPositions {
  import opened Basics
  import opened Sorting

  function Firsts(ids: seq<DroneId>): (r: seq<DroneId>)
    ensures Distinct(r)
    ensures forall id :: id in r <==> id in ids
  {
    if ids == [] then []
    else
      assert ids == ids[..|ids| - 1] + [ids[|ids| - 1]];
      var front := Firsts(ids[..|ids| - 1]);
      if ids[|ids| - 1] in front then front else front + [ids[|ids| - 1]]
  }

  /** The known peers, each once, in order. */
  function OrderedIds(me: DroneId, peers: seq<DroneId>): seq<DroneId> {
    Sort(Firsts(if peers == [] then [me] else peers), IdLe)
  }

  function IndexOrZero(ids: seq<DroneId>, me: DroneId): (i: nat)
    ensures ids != [] ==> i < |ids|
    ensures me in ids ==> i < |ids| && ids[i] == me
  {
    if me !in ids then 0 else FirstIndex(ids, me)
  }

  function FirstIndex(ids: seq<DroneId>, me: DroneId): (i: nat)
    requires me in ids
    ensures i < |ids| && ids[i] == me
  {
    if ids[0] == me then 0 else 1 + FirstIndex(ids[1..], me)
  }

  /** The border of the grid, once around: top row, right column, bottom row back, left column up. */
  function Ring(grid: nat): seq<Coord>
    requires grid > 1
  {
    var m := grid - 1;
    seq(grid, k => Coord(k, 0)) + seq(m, k => Coord(m, k + 1)) + seq(m, k => Coord(m - 1 - k, m))
    + seq(m - 1, k => Coord(0, m - 1 - k))
  }

  function Step(ring: nat, drones: nat): nat {
    if drones == 0 || ring / drones < 1 then 1 else ring / drones
  }

  /** The drone's own place on the ring. */
  function RingIndex(me: DroneId, peers: seq<DroneId>, grid: nat): (i: nat)
    requires grid > 1
    ensures i < |Ring(grid)|
  {
    var ids := OrderedIds(me, peers);
    (IndexOrZero(ids, me) * Step(|Ring(grid)|, |ids|)) % |Ring(grid)|
  }

  function SpreadStartingPosition(me: DroneId, peers: seq<DroneId>, grid: nat): Coord {
    if grid <= 1 then Coord(0, 0) else Ring(grid)[RingIndex(me, peers, grid)]
  }

  /** A known peer starts as many even steps along the border as there are peers before it. */
  lemma PlaceByRank(me: DroneId, peers: seq<DroneId>, grid: nat)
    requires grid > 1 && me in peers
    ensures |Elements(peers)| > 0
    ensures var ring, n, rank := 4 * (grid - 1), |Elements(peers)|, |set p | p in peers && p < me|;
      var step := if n <= ring then ring / n else 1;
      RingIndex(me, peers, grid) == (rank * step) % ring
  {
    hide Ring, IndexOrZero, Firsts, Sort;
    var ids := OrderedIds(me, peers);
    OrderedFacts(me, peers);
    RingLength(grid);
    var i := IndexOrZero(ids, me);
    RankIs(ids, i);
    assert (set p | p in peers && p < me) == set p | p in ids && p < ids[i];
    StepIs(4 * (grid - 1), |ids|);
  }

  /** A drone that is not on the list of peers, or on a grid without a border, starts in the corner. */
  lemma StrangerInCorner(me: DroneId, peers: seq<DroneId>, grid: nat)
    requires grid <= 1 || me !in peers
    ensures SpreadStartingPosition(me, peers, grid) == Coord(0, 0)
  {
    hide Ring, RingIndex, OrderedIds, IndexOrZero, Step;
    if grid > 1 {
      StrangerFirst(me, peers);
      RingPlace(me, peers, grid);
      RingLength(grid);
      RingAt(grid, 0);
      Nowhere(Step(|Ring(grid)|, |OrderedIds(me, peers)|), |Ring(grid)|);
    }
  }

  lemma Nowhere(step: nat, ring: nat)
    requires ring > 0
    ensures (0 * step) % ring == 0
  {}

  lemma StrangerFirst(me: DroneId, peers: seq<DroneId>)
    requires me !in peers
    ensures IndexOrZero(OrderedIds(me, peers), me) == 0
  {
    hide OrderedIds;
    if peers == [] {
      AloneInOrder(me);
    } else {
      OrderedFacts(me, peers);
    }
  }

  lemma AloneInOrder(me: DroneId)
    ensures |OrderedIds(me, [])| == 1 && IndexOrZero(OrderedIds(me, []), me) == 0
  {
    hide Sort, Firsts;
    OrderedFacts(me, [me]);
    assert Elements([me]) == {me};
  }

  lemma StepIs(ring: nat, drones: nat)
    requires drones > 0
    ensures Step(ring, drones) == if drones <= ring then ring / drones else 1
  {}

  lemma {:induction false} RankIs(ids: seq<DroneId>, i: nat)
    requires i < |ids| && forall j, k :: 0 <= j < k < |ids| ==> ids[j] < ids[k]
    ensures |set p | p in ids && p < ids[i]| == i
  {
    var front := ids[..i];
    assert Distinct(front);
    DistinctLength(front);
    forall p ensures p in Elements(front) <==> p in ids && p < ids[i] {
      if p in ids && p < ids[i] {
        var k :| 0 <= k < |ids| && ids[k] == p;
        assert front[k] == p;
      }
      if p in front {
        var k :| 0 <= k < |front| && front[k] == p;
        assert ids[k] == p;
      }
    }
    assert (set p | p in ids && p < ids[i]) == Elements(front);
  }

  // ----- the ring -----

  lemma RingAt(grid: nat, k: nat)
    requires grid > 1 && k < |Ring(grid)|
    ensures var m := grid - 1;
      Ring(grid)[k] == if k <= m then Coord(k, 0) else if k <= 2 * m then Coord(m, k - m)
                       else if k <= 3 * m then Coord(3 * m - k, m) else Coord(0, 4 * m - k)
  {}

  /** The ring passes every border cell exactly once, from neighbour to neighbour, and closes. */
  lemma RingIsBorder(grid: nat)
    requires grid > 1
    ensures |Ring(grid)| == 4 * (grid - 1) && Distinct(Ring(grid))
    ensures forall c :: c in Ring(grid) <==>
      InGrid(c, grid) && (c.x == 0 || c.x == grid - 1 || c.y == 0 || c.y == grid - 1)
    ensures forall k :: 0 <= k < |Ring(grid)| - 1 ==> Adjacent(Ring(grid)[k], Ring(grid)[k + 1])
    ensures Adjacent(Ring(grid)[|Ring(grid)| - 1], Ring(grid)[0])
  {
    hide Ring, Adjacent;
    var ring, m := Ring(grid), grid - 1;
    RingLength(grid);
    forall i, j | 0 <= i < j < |ring| ensures ring[i] != ring[j] {
      RingAt(grid, i);
      RingAt(grid, j);
    }
    forall k | 0 <= k < |ring| - 1 ensures Adjacent(ring[k], ring[k + 1]) {
      Neighbours(grid, k, k + 1);
    }
    Neighbours(grid, |ring| - 1, 0);
    forall c ensures c in ring <==> InGrid(c, grid) && (c.x == 0 || c.x == m || c.y == 0 || c.y == m) {
      if k :| 0 <= k < |ring| && ring[k] == c {
        RingAt(grid, k);
      }
      if InGrid(c, grid) && (c.x == 0 || c.x == m || c.y == 0 || c.y == m) {
        var k := if c.y == 0 then c.x else if c.x == m then m + c.y else if c.y == m then 3 * m - c.x else 4 * m - c.y;
        RingAt(grid, k);
        assert ring[k] == c;
      }
    }
  }

  lemma RingLength(grid: nat)
    requires grid > 1
    ensures |Ring(grid)| == 4 * (grid - 1)
  {}

  lemma Neighbours(grid: nat, j: nat, k: nat)
    requires grid > 1 && j < |Ring(grid)| && k < |Ring(grid)| && (k == j + 1 || (j == |Ring(grid)| - 1 && k == 0))
    ensures Adjacent(Ring(grid)[j], Ring(grid)[k])
  {
    hide Ring;
    RingLength(grid);
    RingAt(grid, j);
    RingAt(grid, k);
  }

  // ----- the spread -----

  lemma OrderedFacts(me: DroneId, peers: seq<DroneId>)
    requires peers != []
    ensures var ids := OrderedIds(me, peers);
      && (forall i, j :: 0 <= i < j < |ids| ==> ids[i] < ids[j]) && (forall id :: id in ids <==> id in peers)
      && |ids| == |Elements(peers)| && ids != []
  {
    hide Sort;
    var ids := OrderedIds(me, peers);
    SortedIds(Firsts(peers));
    assert Distinct(ids);
    DistinctLength(ids);
    assert forall id :: id in ids <==> id in peers;
    assert Elements(ids) == Elements(peers);
    assert peers[0] in ids;
  }

  lemma Grows(a: int, b: int, step: nat)
    requires a <= b
    ensures a * step <= b * step
  {
    assert (b - a) * step >= 0;
  }

  lemma Multiples(i: nat, j: nat, n: nat, step: nat, ring: nat)
    requires i < j < n && n * step <= ring
    ensures step <= j * step - i * step <= ring - step && j * step <= ring - step && 0 <= i * step
  {
    Grows(i + 1, j, step);
    Grows(j + 1, n, step);
    Grows(0, i, step);
    NextMultiple(i, step);
    NextMultiple(j, step);
  }

  lemma NextMultiple(i: nat, step: nat)
    ensures (i + 1) * step == i * step + step
  {}

  lemma StepFits(ring: nat, drones: nat)
    requires 0 < drones <= ring
    ensures Step(ring, drones) == ring / drones >= 1 && drones * Step(ring, drones) <= ring
  {
    Divides(ring, drones);
  }

  lemma Divides(ring: nat, drones: nat)
    requires 0 < drones <= ring
    ensures ring / drones >= 1 && drones * (ring / drones) <= ring
  {
    assert ring == drones * (ring / drones) + ring % drones;
  }

  lemma InOrder(ids: seq<DroneId>, i: nat, j: nat)
    requires forall k, m :: 0 <= k < m < |ids| ==> ids[k] < ids[m]
    requires i < |ids| && j < |ids| && ids[i] < ids[j]
    ensures i < j
  {}

  /** On a big enough ring two drones are at least an even share of it apart, going either way around. */
  lemma EvenlySpread(a: DroneId, b: DroneId, peers: seq<DroneId>, grid: nat)
    requires grid > 1 && a in peers && b in peers && a < b && 0 < |Elements(peers)| <= |Ring(grid)|
    ensures var ring, i, j := |Ring(grid)|, RingIndex(a, peers, grid), RingIndex(b, peers, grid);
      && i < j && j - i >= ring / |Elements(peers)| && ring - (j - i) >= ring / |Elements(peers)|
  {
    hide OrderedIds, Ring, IndexOrZero, Step, RingIndex;
    OrderedFacts(a, peers);
    var ids := OrderedIds(a, peers);
    SameOrder(a, b, peers);
    var i, j := IndexOrZero(ids, a), IndexOrZero(ids, b);
    InOrder(ids, i, j);
    Places(i, j, |ids|, |Ring(grid)|);
    RingPlace(a, peers, grid);
    RingPlace(b, peers, grid);
  }

  lemma RingPlace(me: DroneId, peers: seq<DroneId>, grid: nat)
    requires grid > 1
    ensures var ids := OrderedIds(me, peers);
      RingIndex(me, peers, grid) == (IndexOrZero(ids, me) * Step(|Ring(grid)|, |ids|)) % |Ring(grid)|
  {
    hide OrderedIds, Ring, IndexOrZero, Step;
  }

  lemma Places(i: nat, j: nat, drones: nat, ring: nat)
    requires i < j < drones <= ring
    ensures var step := Step(ring, drones);
      && step == ring / drones
      && (i * step) % ring < (j * step) % ring
      && (j * step) % ring - (i * step) % ring >= step
      && ring - ((j * step) % ring - (i * step) % ring) >= step
  {
    hide Step;
    var step := Step(ring, drones);
    StepFits(ring, drones);
    Multiples(i, j, drones, step, ring);
    Unwrapped(i * step, ring);
    Unwrapped(j * step, ring);
  }

  lemma Unwrapped(i: nat, ring: nat)
    requires i < ring
    ensures i % ring == i
  {}

  lemma SameOrder(a: DroneId, b: DroneId, peers: seq<DroneId>)
    requires peers != []
    ensures OrderedIds(a, peers) == OrderedIds(b, peers)
  {}

  ghost predicate AllApart(peers: seq<DroneId>, grid: nat) {
    forall a, b :: a in peers && b in peers && a != b ==>
      SpreadStartingPosition(a, peers, grid) != SpreadStartingPosition(b, peers, grid)
  }

  /** The peers start on different cells exactly when the border has room for all of them; a grid without
      a border has room for one. */
  lemma StartApartExactly(peers: seq<DroneId>, grid: nat)
    ensures AllApart(peers, grid) <==> |Elements(peers)| <= if grid <= 1 then 1 else 4 * (grid - 1)
  {
    if grid <= 1 {
      OneCellApart(peers, grid);
    } else {
      RingApart(peers, grid);
    }
  }

  lemma OneCellApart(peers: seq<DroneId>, grid: nat)
    requires grid <= 1
    ensures AllApart(peers, grid) <==> |Elements(peers)| <= 1
  {
    if a, b :| a in peers && b in peers && a != b {
      assert {a, b} <= Elements(peers);
      SubsetSize({a, b}, Elements(peers));
      assert SpreadStartingPosition(a, peers, grid) == SpreadStartingPosition(b, peers, grid);
    } else if peers != [] {
      assert peers[0] in Elements(peers);
      forall x | x in Elements(peers) ensures x == peers[0] {
        assert x in peers && peers[0] in peers;
      }
      assert Elements(peers) == {peers[0]};
    } else {
      assert Elements(peers) == {};
    }
  }

  lemma RingApart(peers: seq<DroneId>, grid: nat)
    requires grid > 1
    ensures AllApart(peers, grid) <==> |Elements(peers)| <= 4 * (grid - 1)
  {
    hide RingIndex, Ring;
    RingLength(grid);
    RingIsBorder(grid);
    if |Elements(peers)| <= 4 * (grid - 1) {
      forall a, b | a in peers && b in peers && a < b
        ensures Ring(grid)[RingIndex(a, peers, grid)] != Ring(grid)[RingIndex(b, peers, grid)]
      {
        assert a in Elements(peers);
        EvenlySpread(a, b, peers, grid);
      }
    } else {
      CrowdedRing(peers, grid);
    }
  }

  /** With more peers than border cells the count goes around, and the peer one round later meets the first. */
  lemma CrowdedRing(peers: seq<DroneId>, grid: nat)
    requires grid > 1 && |Elements(peers)| > |Ring(grid)|
    ensures !AllApart(peers, grid)
  {
    hide OrderedIds, Ring, IndexOrZero, Step;
    RingLength(grid);
    assert peers != [] by {
      assert peers == [] ==> Elements(peers) == {};
    }
    OrderedFacts(peers[0], peers);
    var ids := OrderedIds(peers[0], peers);
    var n := |Ring(grid)|;
    SameOrder(ids[0], peers[0], peers);
    SameOrder(ids[n], peers[0], peers);
    OnlyIndex(ids, ids[0], 0);
    OnlyIndex(ids, ids[n], n);
    FullCircle(n, |ids|);
    assert ids[0] != ids[n] && ids[0] in peers && ids[n] in peers;
  }

  lemma FullCircle(ring: nat, drones: nat)
    requires 0 < ring < drones
    ensures (ring * Step(ring, drones)) % ring == 0 == (0 * Step(ring, drones)) % ring
  {
    assert ring / drones == 0;
  }

  lemma OnlyIndex(ids: seq<DroneId>, id: DroneId, k: nat)
    requires forall i, j :: 0 <= i < j < |ids| ==> ids[i] < ids[j]
    requires k < |ids| && ids[k] == id
    ensures IndexOrZero(ids, id) == k
  {
    var i := IndexOrZero(ids, id);
    assert ids[i] == ids[k];
  }
}
