/** The terrain partition: a multi-source breadth-first search that hands every cell to a seed.
    The reference definition is a brute-force argmin over the seeds; the search refines it. */
module Voronoi {
  import opened Basics
  import opened Sorting

  datatype Seed = Seed(id: DroneId, position: Coord)

  /** How far a seed is from a cell, and the seed's rank in id order. */
  datatype Label = Label(dist: int, rank: int)

  predicate Less(a: Label, b: Label) {
    a.dist < b.dist || (a.dist == b.dist && a.rank < b.rank)
  }

  /** An entry of the search queue. */
  datatype Entry = Entry(key: Label, cell: Coord)

  predicate SeedLe(a: Seed, b: Seed) {
    a.id <= b.id
  }

  // ----- the reference: brute force over the seeds -----

  /** A seed wins a cell when no seed inside the grid is nearer, or as near with a smaller id. */
  ghost predicate Wins(seeds: set<Seed>, size: nat, c: Coord, s: Seed) {
    && s in seeds && InGrid(s.position, size)
    && forall t :: t in seeds && InGrid(t.position, size) ==>
         Manhattan(s.position, c) < Manhattan(t.position, c)
         || (Manhattan(s.position, c) == Manhattan(t.position, c) && s.id <= t.id)
  }

  /** The owner a cell should have. */
  ghost predicate OwnerIs(seeds: set<Seed>, size: nat, c: Coord, owner: Option<DroneId>) {
    match owner
    case None => forall t :: t in seeds ==> !InGrid(t.position, size)
    case Some(id) => exists s :: Wins(seeds, size, c, s) && s.id == id
  }

  lemma OwnerUnique(seeds: set<Seed>, size: nat, c: Coord, a: Option<DroneId>, b: Option<DroneId>)
    requires OwnerIs(seeds, size, c, a) && OwnerIs(seeds, size, c, b)
    ensures a == b
  {
    if a.Some? && b.Some? {
      var s :| Wins(seeds, size, c, s) && s.id == a.value;
      var t :| Wins(seeds, size, c, t) && t.id == b.value;
    }
  }

  /** Walking from a cell towards its winner one stays in the winner's region, one step nearer each
      time, until the winner's own cell: every region is 4-connected through its seed. */
  lemma {:induction false} RegionPath(seeds: set<Seed>, size: nat, c: Coord, s: Seed) returns (path: seq<Coord>)
    requires InGrid(c, size) && Wins(seeds, size, c, s)
    ensures |path| == Manhattan(s.position, c) + 1
    ensures path[0] == c && path[|path| - 1] == s.position
    ensures forall i :: 0 <= i < |path| ==>
      && InGrid(path[i], size) && Wins(seeds, size, path[i], s)
      && Manhattan(s.position, path[i]) == |path| - 1 - i
    ensures forall i :: 0 <= i < |path| - 1 ==> Adjacent(path[i], path[i + 1])
    decreases Manhattan(s.position, c)
  {
    if c == s.position {
      path := [c];
    } else {
      var p := Toward(c, s.position);
      TowardStaysInside(c, s.position, size);
      WinsToward(seeds, size, c, s);
      var rest := RegionPath(seeds, size, p, s);
      path := [c] + rest;
    }
  }

  lemma WinsToward(seeds: set<Seed>, size: nat, c: Coord, s: Seed)
    requires Wins(seeds, size, c, s) && c != s.position
    ensures Wins(seeds, size, Toward(c, s.position), s)
  {
    var p := Toward(c, s.position);
    forall t | t in seeds && InGrid(t.position, size)
      ensures Manhattan(s.position, p) < Manhattan(t.position, p)
              || (Manhattan(s.position, p) == Manhattan(t.position, p) && s.id <= t.id)
    {
      NeighbourDistance(t.position, p, c);
    }
  }

  // ----- labels over the ranked seeds -----

  ghost predicate Competes(ranked: seq<Seed>, size: nat, i: int) {
    0 <= i < |ranked| && InGrid(ranked[i].position, size)
  }

  function Key(ranked: seq<Seed>, i: nat, c: Coord): Label
    requires i < |ranked|
  {
    Label(Manhattan(ranked[i].position, c), i)
  }

  /** The least label among the first n ranked seeds. */
  ghost function BestUpTo(ranked: seq<Seed>, size: nat, c: Coord, n: nat): (r: Option<Label>)
    requires n <= |ranked|
    ensures r.None? <==> forall i :: i < n ==> !Competes(ranked, size, i)
    ensures r.Some? ==> Competes(ranked, size, r.value.rank) && r.value.rank < n
    ensures r.Some? ==> r.value == Key(ranked, r.value.rank, c)
    ensures r.Some? ==> forall i :: i < n && Competes(ranked, size, i) ==> !Less(Key(ranked, i, c), r.value)
  {
    if n == 0 then None
    else
      var before := BestUpTo(ranked, size, c, n - 1);
      if !Competes(ranked, size, n - 1) then before
      else
        var key := Key(ranked, n - 1, c);
        if before.Some? && !Less(key, before.value) then before else Some(key)
  }

  ghost predicate Contested(ranked: seq<Seed>, size: nat) {
    exists i :: Competes(ranked, size, i)
  }

  ghost function Best(ranked: seq<Seed>, size: nat, c: Coord): (r: Label)
    requires Contested(ranked, size)
    ensures Competes(ranked, size, r.rank) && r == Key(ranked, r.rank, c)
    ensures forall i :: Competes(ranked, size, i) ==> !Less(Key(ranked, i, c), r)
  {
    BestUpTo(ranked, size, c, |ranked|).value
  }

  lemma BestBeats(ranked: seq<Seed>, size: nat, c: Coord, j: nat)
    requires Sorted(ranked, SeedLe) && Competes(ranked, size, j)
    ensures Contested(ranked, size)
    ensures var s := ranked[Best(ranked, size, c).rank];
            var t := ranked[j];
            Manhattan(s.position, c) < Manhattan(t.position, c)
            || (Manhattan(s.position, c) == Manhattan(t.position, c) && s.id <= t.id)
  {
    hide BestUpTo;
    var best := Best(ranked, size, c);
    assert !Less(Key(ranked, j, c), best);
    assert best.rank < j ==> SeedLe(ranked[best.rank], ranked[j]);
  }

  /** The best ranked seed is the brute-force winner. */
  lemma BestWins(seeds: seq<Seed>, ranked: seq<Seed>, size: nat, c: Coord)
    requires ranked == Sort(seeds, SeedLe)
    requires Contested(ranked, size)
    ensures Wins(Elements(seeds), size, c, ranked[Best(ranked, size, c).rank])
  {
    hide Best, Sort, Manhattan, Sorted, TotalPreorder;
    assert TotalPreorder(SeedLe) by { SeedOrder(); }
    SortSorts(seeds, SeedLe);
    SameElements(seeds, ranked);
    forall t | t in seeds && InGrid(t.position, size)
      ensures var s := ranked[Best(ranked, size, c).rank];
              Manhattan(s.position, c) < Manhattan(t.position, c)
              || (Manhattan(s.position, c) == Manhattan(t.position, c) && s.id <= t.id)
    {
      var j :| 0 <= j < |ranked| && ranked[j] == t;
      BestBeats(ranked, size, c, j);
    }
  }

  lemma SeedOrder()
    ensures TotalPreorder(SeedLe)
  {}

  // ----- geometry -----

  /** The neighbour of c that is one step nearer to s. */
  function Toward(c: Coord, s: Coord): (p: Coord)
    requires c != s
    ensures Adjacent(c, p) && Manhattan(s, p) == Manhattan(s, c) - 1
  {
    if c.x < s.x then Coord(c.x + 1, c.y)
    else if c.x > s.x then Coord(c.x - 1, c.y)
    else if c.y < s.y then Coord(c.x, c.y + 1)
    else Coord(c.x, c.y - 1)
  }

  lemma TowardStaysInside(c: Coord, s: Coord, size: nat)
    requires c != s && InGrid(c, size) && InGrid(s, size)
    ensures InGrid(Toward(c, s), size)
  {}

  lemma NeighbourDistance(s: Coord, a: Coord, b: Coord)
    requires Adjacent(a, b)
    ensures Manhattan(s, b) <= Manhattan(s, a) + 1
  {}

  /** One step towards its winner, a cell has the same winner. */
  lemma BestTowardWinner(ranked: seq<Seed>, size: nat, c: Coord)
    requires Contested(ranked, size)
    requires Best(ranked, size, c).dist > 0
    ensures var best := Best(ranked, size, c);
            var p := Toward(c, ranked[best.rank].position);
            Best(ranked, size, p) == Label(best.dist - 1, best.rank)
  {
    var best := Best(ranked, size, c);
    var p := Toward(c, ranked[best.rank].position);
    var near := Best(ranked, size, p);
    assert !Less(Key(ranked, best.rank, p), near);
    assert !Less(Key(ranked, near.rank, c), best);
    NeighbourDistance(ranked[near.rank].position, p, c);
  }

  /** A cell's best label is at most one step worse than any neighbour's. */
  lemma BestOfNeighbour(ranked: seq<Seed>, size: nat, p: Coord, c: Coord)
    requires Contested(ranked, size) && Adjacent(p, c)
    ensures var best := Best(ranked, size, p);
            !Less(Label(best.dist + 1, best.rank), Best(ranked, size, c))
  {
    var best := Best(ranked, size, p);
    NeighbourDistance(ranked[best.rank].position, p, c);
    assert !Less(Key(ranked, best.rank, c), Best(ranked, size, c));
  }

  // ----- the search frontier -----

  /** Every claimed cell that is not waiting in the queue has only claimed neighbours. */
  ghost predicate Closed(size: nat, claimed: set<Coord>, waiting: set<Coord>) {
    forall p, c :: p in claimed && p !in waiting && Adjacent(p, c) && InGrid(c, size) ==> c in claimed
  }

  ghost predicate SeedsClaimed(ranked: seq<Seed>, size: nat, claimed: set<Coord>) {
    forall i :: Competes(ranked, size, i) ==> ranked[i].position in claimed
  }

  /** On the way from an unclaimed cell to its winner some cell of the same winner is waiting. */
  lemma {:induction false} FrontierBefore(ranked: seq<Seed>, size: nat, claimed: set<Coord>, waiting: set<Coord>,
                                          c: Coord) returns (p: Coord)
    requires Contested(ranked, size) && SeedsClaimed(ranked, size, claimed)
    requires Closed(size, claimed, waiting)
    requires InGrid(c, size) && c !in claimed
    ensures p in claimed && p in waiting
    ensures Best(ranked, size, p).rank == Best(ranked, size, c).rank
    ensures Best(ranked, size, p).dist < Best(ranked, size, c).dist
    decreases Best(ranked, size, c).dist
  {
    var best := Best(ranked, size, c);
    var home := ranked[best.rank].position;
    assert home in claimed;
    p := Toward(c, home);
    BestTowardWinner(ranked, size, c);
    TowardStaysInside(c, home, size);
    if p !in claimed {
      p := FrontierBefore(ranked, size, claimed, waiting, p);
    }
  }

  ghost predicate QueueSorted(queue: seq<Entry>) {
    && (forall i, j :: 0 <= i < j < |queue| ==> !Less(queue[j].key, queue[i].key))
    && (|queue| > 0 ==> forall i :: 0 <= i < |queue| ==>
          !Less(Label(queue[0].key.dist + 1, queue[0].key.rank), queue[i].key))
  }

  ghost predicate QueueLabelled(ranked: seq<Seed>, size: nat, queue: seq<Entry>)
    requires Contested(ranked, size)
  {
    forall i :: 0 <= i < |queue| ==>
      InGrid(queue[i].cell, size) && queue[i].key == Best(ranked, size, queue[i].cell)
  }

  ghost function Waiting(queue: seq<Entry>): set<Coord> {
    set i | 0 <= i < |queue| :: queue[i].cell
  }

  /** Every unclaimed cell is at least one step worse than the head of the queue. */
  lemma HeadIsLeast(ranked: seq<Seed>, size: nat, claimed: set<Coord>, queue: seq<Entry>, c: Coord)
    requires Contested(ranked, size) && SeedsClaimed(ranked, size, claimed)
    requires QueueLabelled(ranked, size, queue) && QueueSorted(queue)
    requires Closed(size, claimed, Waiting(queue))
    requires InGrid(c, size) && c !in claimed
    ensures |queue| > 0
    ensures !Less(Best(ranked, size, c), Label(queue[0].key.dist + 1, queue[0].key.rank))
  {
    var p := FrontierBefore(ranked, size, claimed, Waiting(queue), c);
    var i :| 0 <= i < |queue| && queue[i].cell == p;
    assert !Less(queue[i].key, queue[0].key);
  }

  // ----- the search -----

  /** The three arrays agree with the set of claimed cells: each of those carries its best label and
      the id of the winning seed, every other cell is blank. */
  ghost predicate Painted(ranked: seq<Seed>, size: nat, claimed: set<Coord>,
                          grid: array2<Option<DroneId>>, dist: array2<int>, tie: array2<int>)
    reads grid, dist, tie
  {
    && grid.Length0 == dist.Length0 == tie.Length0 == size
    && grid.Length1 == dist.Length1 == tie.Length1 == size
    && (forall c :: c in claimed ==> InGrid(c, size))
    && (claimed != {} ==> Contested(ranked, size))
    && forall c :: InGrid(c, size) ==>
         if c in claimed then
           && Label(dist[c.y, c.x], tie[c.y, c.x]) == Best(ranked, size, c)
           && grid[c.y, c.x] == Some(ranked[Best(ranked, size, c).rank].id)
         else
           dist[c.y, c.x] == -1 && tie[c.y, c.x] == -1 && grid[c.y, c.x] == None
  }

  lemma PaintedCell(ranked: seq<Seed>, size: nat, claimed: set<Coord>,
                    grid: array2<Option<DroneId>>, dist: array2<int>, tie: array2<int>, c: Coord)
    requires Painted(ranked, size, claimed, grid, dist, tie) && InGrid(c, size)
    requires Contested(ranked, size)
    ensures c.x < dist.Length1 == tie.Length1 && c.y < dist.Length0 == tie.Length0
    ensures c !in claimed ==> dist[c.y, c.x] == -1
    ensures c in claimed ==>
      dist[c.y, c.x] != -1 && Label(dist[c.y, c.x], tie[c.y, c.x]) == Best(ranked, size, c)
  {}

  lemma FirstSeedIsBest(ranked: seq<Seed>, size: nat, i: nat)
    requires Competes(ranked, size, i)
    requires forall j :: 0 <= j < i && Competes(ranked, size, j) ==> ranked[j].position != ranked[i].position
    ensures Best(ranked, size, ranked[i].position) == Label(0, i)
  {
    var best := Best(ranked, size, ranked[i].position);
    assert !Less(Key(ranked, i, ranked[i].position), best);
  }

  /** What the search knows between two turns of its main loop: `pushed` lists the claimed cells in
      the order they entered the queue, of which the last |queue| are still waiting. */
  ghost predicate Frontier(ranked: seq<Seed>, size: nat, claimed: set<Coord>, queue: seq<Entry>, pushed: seq<Coord>) {
    && Contested(ranked, size) && SeedsClaimed(ranked, size, claimed)
    && QueueLabelled(ranked, size, queue) && QueueSorted(queue)
    && Closed(size, claimed, Waiting(queue))
    && Ledger(size, claimed, queue, pushed)
  }

  ghost predicate Ledger(size: nat, claimed: set<Coord>, queue: seq<Entry>, pushed: seq<Coord>) {
    && Distinct(pushed) && Elements(pushed) == claimed
    && (forall c :: c in claimed ==> InGrid(c, size))
    && |queue| <= |pushed|
    && forall i :: 0 <= i < |queue| ==> queue[i].cell == pushed[|pushed| - |queue| + i]
  }

  /** What holds while the head (already popped) hands its label to its neighbours. */
  ghost predicate Expanding(ranked: seq<Seed>, size: nat, claimed: set<Coord>, queue: seq<Entry>,
                            pushed: seq<Coord>, head: Entry)
  {
    && Contested(ranked, size) && SeedsClaimed(ranked, size, claimed)
    && QueueLabelled(ranked, size, queue)
    && Ledger(size, claimed, queue, pushed)
    && InGrid(head.cell, size) && head.key == Best(ranked, size, head.cell)
    && Closed(size, claimed, Waiting(queue) + {head.cell})
    && (forall i, j :: 0 <= i < j < |queue| ==> !Less(queue[j].key, queue[i].key))
    && (forall i :: 0 <= i < |queue| ==>
          && !Less(queue[i].key, head.key)
          && !Less(Label(head.key.dist + 1, head.key.rank), queue[i].key))
    && forall c :: InGrid(c, size) && c !in claimed ==>
         !Less(Best(ranked, size, c), Label(head.key.dist + 1, head.key.rank))
  }

  lemma PopHead(ranked: seq<Seed>, size: nat, claimed: set<Coord>, queue: seq<Entry>, pushed: seq<Coord>)
    requires Frontier(ranked, size, claimed, queue, pushed) && |queue| > 0
    ensures Expanding(ranked, size, claimed, queue[1..], pushed, queue[0])
  {
    assert Waiting(queue) == Waiting(queue[1..]) + {queue[0].cell};
    forall c | InGrid(c, size) && c !in claimed
      ensures !Less(Best(ranked, size, c), Label(queue[0].key.dist + 1, queue[0].key.rank))
    {
      HeadIsLeast(ranked, size, claimed, queue, c);
    }
  }

  lemma FinishHead(ranked: seq<Seed>, size: nat, claimed: set<Coord>, queue: seq<Entry>, pushed: seq<Coord>,
                   head: Entry)
    requires Expanding(ranked, size, claimed, queue, pushed, head)
    requires forall c :: Adjacent(head.cell, c) && InGrid(c, size) ==> c in claimed
    ensures Frontier(ranked, size, claimed, queue, pushed)
  {}

  lemma LedgerExtend(size: nat, claimed: set<Coord>, queue: seq<Entry>, pushed: seq<Coord>, entry: Entry)
    requires Ledger(size, claimed, queue, pushed)
    requires InGrid(entry.cell, size) && entry.cell !in claimed
    ensures Ledger(size, claimed + {entry.cell}, queue + [entry], pushed + [entry.cell])
  {
    assert entry.cell !in Elements(pushed);
    assert Elements(pushed + [entry.cell]) == Elements(pushed) + {entry.cell};
  }

  lemma WaitingExtend(queue: seq<Entry>, entry: Entry)
    ensures Waiting(queue + [entry]) == Waiting(queue) + {entry.cell}
  {
    assert forall i :: 0 <= i < |queue| ==> (queue + [entry])[i] == queue[i];
    assert (queue + [entry])[|queue|] == entry;
  }

  lemma ClosedExtend(size: nat, claimed: set<Coord>, waiting: set<Coord>, c: Coord)
    requires Closed(size, claimed, waiting)
    ensures Closed(size, claimed + {c}, waiting + {c})
  {}

  /** An unclaimed neighbour of the head has exactly the label the head hands on. */
  lemma NeighbourLabel(ranked: seq<Seed>, size: nat, claimed: set<Coord>, queue: seq<Entry>, pushed: seq<Coord>,
                       head: Entry, c: Coord)
    requires Expanding(ranked, size, claimed, queue, pushed, head)
    requires Adjacent(head.cell, c) && InGrid(c, size) && c !in claimed
    ensures Best(ranked, size, c) == Label(head.key.dist + 1, head.key.rank)
  {
    BestOfNeighbour(ranked, size, head.cell, c);
  }

  /** An unclaimed neighbour receives its best label and joins the tail of the queue. */
  lemma ClaimNeighbour(ranked: seq<Seed>, size: nat, claimed: set<Coord>, queue: seq<Entry>, pushed: seq<Coord>,
                       head: Entry, c: Coord)
    requires Expanding(ranked, size, claimed, queue, pushed, head)
    requires Adjacent(head.cell, c) && InGrid(c, size) && c !in claimed
    ensures Best(ranked, size, c) == Label(head.key.dist + 1, head.key.rank)
    ensures Expanding(ranked, size, claimed + {c}, queue + [Entry(Best(ranked, size, c), c)], pushed + [c], head)
  {
    NeighbourLabel(ranked, size, claimed, queue, pushed, head, c);
    var entry := Entry(Best(ranked, size, c), c);
    LedgerExtend(size, claimed, queue, pushed, entry);
    WaitingExtend(queue, entry);
    ClosedExtend(size, claimed, Waiting(queue) + {head.cell}, c);
    assert Waiting(queue) + {head.cell} + {c} == Waiting(queue + [entry]) + {head.cell};
  }

  /** A claimed neighbour would only receive a label no better than the one it has. */
  lemma NeighbourKeepsLabel(ranked: seq<Seed>, size: nat, head: Entry, c: Coord)
    requires Contested(ranked, size) && head.key == Best(ranked, size, head.cell)
    requires Adjacent(head.cell, c)
    ensures !Less(Label(head.key.dist + 1, head.key.rank), Best(ranked, size, c))
  {
    BestOfNeighbour(ranked, size, head.cell, c);
  }

  lemma NothingWaiting(ranked: seq<Seed>, size: nat, claimed: set<Coord>, queue: seq<Entry>, pushed: seq<Coord>,
                       c: Coord)
    requires Frontier(ranked, size, claimed, queue, pushed) && queue == [] && InGrid(c, size)
    ensures c in claimed
  {
    if c !in claimed {
      HeadIsLeast(ranked, size, claimed, queue, c);
    }
  }

  lemma LedgerRoom(size: nat, claimed: set<Coord>, queue: seq<Entry>, pushed: seq<Coord>)
    requires Ledger(size, claimed, queue, pushed)
    ensures |pushed| <= |GridCells(size)|
  {
    forall x | x in pushed ensures x in GridCells(size) {
      assert x in Elements(pushed);
      GridCellsExact(size, x);
    }
    DistinctWithin(pushed, GridCells(size));
  }

  const STEPS: seq<(int, int)> := [(0, 1), (0, -1), (1, 0), (-1, 0)]

  ghost predicate Planted(ranked: seq<Seed>, size: nat, claimed: set<Coord>, queue: seq<Entry>, idx: nat) {
    && (forall i :: 0 <= i < |queue| ==>
          && Competes(ranked, size, queue[i].key.rank) && queue[i].key.rank < idx
          && queue[i].key == Best(ranked, size, queue[i].cell) && queue[i].key.dist == 0)
    && (forall i, j :: 0 <= i < j < |queue| ==> queue[i].key.rank < queue[j].key.rank)
    && (forall i :: 0 <= i < idx && Competes(ranked, size, i) ==> ranked[i].position in claimed)
    && (forall c :: c in claimed ==> exists i :: 0 <= i < idx && Competes(ranked, size, i) && ranked[i].position == c)
  }

  lemma PlantNext(ranked: seq<Seed>, size: nat, claimed: set<Coord>, queue: seq<Entry>, idx: nat)
    requires Planted(ranked, size, claimed, queue, idx)
    requires Competes(ranked, size, idx) && ranked[idx].position !in claimed
    ensures Best(ranked, size, ranked[idx].position) == Label(0, idx)
    ensures Planted(ranked, size, claimed + {ranked[idx].position},
                    queue + [Entry(Label(0, idx), ranked[idx].position)], idx + 1)
  {
    FirstSeedIsBest(ranked, size, idx);
  }

  /** Writes one label: the only place where the arrays change. */
  method Paint(ranked: seq<Seed>, size: nat, ghost claimed: set<Coord>, c: Coord, key: Label,
               grid: array2<Option<DroneId>>, dist: array2<int>, tie: array2<int>)
    requires Painted(ranked, size, claimed, grid, dist, tie) && dist != tie
    requires InGrid(c, size) && Contested(ranked, size) && key == Best(ranked, size, c)
    modifies grid, dist, tie
    ensures Painted(ranked, size, claimed + {c}, grid, dist, tie)
  {
    grid[c.y, c.x] := Some(ranked[key.rank].id);
    dist[c.y, c.x] := key.dist;
    tie[c.y, c.x] := key.rank;
  }

  /** A later seed never displaces an earlier one. */
  lemma SeedKeepsCell(ranked: seq<Seed>, size: nat, claimed: set<Coord>, queue: seq<Entry>, idx: nat, s: Coord)
    requires Planted(ranked, size, claimed, queue, idx) && Contested(ranked, size)
    requires s in claimed
    ensures !Less(Label(0, idx), Best(ranked, size, s)) && Best(ranked, size, s).dist != -1
  {
    var i :| 0 <= i < idx && Competes(ranked, size, i) && ranked[i].position == s;
    assert !Less(Key(ranked, i, s), Best(ranked, size, s));
  }

  /** Claims the cells of the seeds, in id order. */
  method PlantSeeds(ranked: seq<Seed>, size: nat,
                    grid: array2<Option<DroneId>>, dist: array2<int>, tie: array2<int>)
      returns (queue: seq<Entry>, ghost claimed: set<Coord>, ghost pushed: seq<Coord>)
    requires Painted(ranked, size, {}, grid, dist, tie) && dist != tie
    modifies grid, dist, tie
    ensures Painted(ranked, size, claimed, grid, dist, tie)
    ensures Planted(ranked, size, claimed, queue, |ranked|)
    ensures Ledger(size, claimed, queue, pushed)
    ensures |pushed| == |queue|
  {
    queue, claimed, pushed := [], {}, [];
    for idx := 0 to |ranked|
      invariant Painted(ranked, size, claimed, grid, dist, tie)
      invariant Planted(ranked, size, claimed, queue, idx)
      invariant Ledger(size, claimed, queue, pushed) && |pushed| == |queue|
    {
      var s := ranked[idx].position;
      if InGrid(s, size) && (dist[s.y, s.x] == -1 || Less(Label(0, idx), Label(dist[s.y, s.x], tie[s.y, s.x]))) {
        assert Competes(ranked, size, idx);
        if s in claimed {
          SeedKeepsCell(ranked, size, claimed, queue, idx, s);
        }
        PlantNext(ranked, size, claimed, queue, idx);
        LedgerExtend(size, claimed, queue, pushed, Entry(Label(0, idx), s));
        Paint(ranked, size, claimed, s, Label(0, idx), grid, dist, tie);
        queue := queue + [Entry(Label(0, idx), s)];
        claimed := claimed + {s};
        pushed := pushed + [s];
      }
    }
  }

  function Shift(c: Coord, step: (int, int)): Coord {
    Coord(c.x + step.0, c.y + step.1)
  }

  lemma StepsReachNeighbours(p: Coord, c: Coord)
    requires Adjacent(p, c)
    ensures exists k :: 0 <= k < 4 && Shift(p, STEPS[k]) == c
  {
    var k := if c.y == p.y + 1 then 0 else if c.y == p.y - 1 then 1 else if c.x == p.x + 1 then 2 else 3;
    assert Shift(p, STEPS[k]) == c;
  }

  lemma HeadLabel(ranked: seq<Seed>, size: nat, claimed: set<Coord>, queue: seq<Entry>, pushed: seq<Coord>, head: Entry)
    requires Expanding(ranked, size, claimed, queue, pushed, head)
    ensures Contested(ranked, size) && InGrid(head.cell, size) && head.key == Best(ranked, size, head.cell)
  {}

  /** Hands the label of the popped head to its four neighbours. */
  method ExpandHead(ranked: seq<Seed>, size: nat, head: Entry, queue0: seq<Entry>,
                    ghost claimed0: set<Coord>, ghost pushed0: seq<Coord>,
                    grid: array2<Option<DroneId>>, dist: array2<int>, tie: array2<int>)
      returns (queue: seq<Entry>, ghost claimed: set<Coord>, ghost pushed: seq<Coord>)
    requires Painted(ranked, size, claimed0, grid, dist, tie) && dist != tie
    requires Expanding(ranked, size, claimed0, queue0, pushed0, head)
    modifies grid, dist, tie
    ensures Painted(ranked, size, claimed, grid, dist, tie)
    ensures Frontier(ranked, size, claimed, queue, pushed)
    ensures |pushed| - |queue| == |pushed0| - |queue0|
  {
    hide Expanding, Frontier, Ledger, Best, Painted, Contested;
    queue, claimed, pushed := queue0, claimed0, pushed0;
    HeadLabel(ranked, size, claimed, queue, pushed, head);
    for k := 0 to 4
      invariant Painted(ranked, size, claimed, grid, dist, tie)
      invariant Expanding(ranked, size, claimed, queue, pushed, head)
      invariant |pushed| - |queue| == |pushed0| - |queue0|
      invariant forall m :: 0 <= m < k && InGrid(Shift(head.cell, STEPS[m]), size) ==>
        Shift(head.cell, STEPS[m]) in claimed
    {
      var n := Shift(head.cell, STEPS[k]);
      if InGrid(n, size) {
        var key := Label(head.key.dist + 1, head.key.rank);
        PaintedCell(ranked, size, claimed, grid, dist, tie, n);
        NeighbourKeepsLabel(ranked, size, head, n);
        if dist[n.y, n.x] == -1 || Less(key, Label(dist[n.y, n.x], tie[n.y, n.x])) {
          ClaimNeighbour(ranked, size, claimed, queue, pushed, head, n);
          Paint(ranked, size, claimed, n, key, grid, dist, tie);
          queue := queue + [Entry(key, n)];
          claimed := claimed + {n};
          pushed := pushed + [n];
        }
      }
    }
    forall c | Adjacent(head.cell, c) && InGrid(c, size) ensures c in claimed {
      StepsReachNeighbours(head.cell, c);
    }
    FinishHead(ranked, size, claimed, queue, pushed, head);
  }

  lemma PlantedWaiting(size: nat, claimed: set<Coord>, queue: seq<Entry>, pushed: seq<Coord>)
    requires Ledger(size, claimed, queue, pushed) && |pushed| == |queue|
    ensures Waiting(queue) == claimed
  {
    forall c ensures c in claimed <==> c in Waiting(queue) {
      assert c in claimed <==> c in Elements(pushed);
      if c in pushed {
        var i :| 0 <= i < |pushed| && pushed[i] == c;
        assert queue[i].cell == c;
      }
      if c in Waiting(queue) {
        var i :| 0 <= i < |queue| && queue[i].cell == c;
        assert pushed[i] == c;
      }
    }
  }

  lemma PlantedSorted(ranked: seq<Seed>, size: nat, claimed: set<Coord>, queue: seq<Entry>)
    requires Planted(ranked, size, claimed, queue, |ranked|)
    ensures QueueSorted(queue)
  {
    hide Best;
  }

  lemma PlantedLabelled(ranked: seq<Seed>, size: nat, claimed: set<Coord>, queue: seq<Entry>, pushed: seq<Coord>)
    requires Planted(ranked, size, claimed, queue, |ranked|) && Contested(ranked, size)
    requires Ledger(size, claimed, queue, pushed) && Waiting(queue) == claimed
    ensures QueueLabelled(ranked, size, queue)
  {
    hide Best, Ledger, Manhattan;
    assert forall i :: 0 <= i < |queue| ==> queue[i].key == Best(ranked, size, queue[i].cell);
    hide Planted, Competes;
    forall i | 0 <= i < |queue| ensures InGrid(queue[i].cell, size) {
      assert queue[i].cell in Waiting(queue);
      LedgerInside(size, claimed, queue, pushed, queue[i].cell);
    }
  }

  lemma PlantedFrontier(ranked: seq<Seed>, size: nat, claimed: set<Coord>, queue: seq<Entry>, pushed: seq<Coord>)
    requires Planted(ranked, size, claimed, queue, |ranked|) && Contested(ranked, size)
    requires Ledger(size, claimed, queue, pushed) && |pushed| == |queue|
    ensures Frontier(ranked, size, claimed, queue, pushed)
  {
    hide Best, Ledger, QueueSorted, QueueLabelled, Waiting;
    PlantedWaiting(size, claimed, queue, pushed);
    PlantedSorted(ranked, size, claimed, queue);
    PlantedLabelled(ranked, size, claimed, queue, pushed);
  }

  lemma LedgerInside(size: nat, claimed: set<Coord>, queue: seq<Entry>, pushed: seq<Coord>, c: Coord)
    requires Ledger(size, claimed, queue, pushed) && c in claimed
    ensures InGrid(c, size)
  {}

  /** A fully painted grid shows the brute-force owners. */
  lemma PaintedOwner(seeds: seq<Seed>, ranked: seq<Seed>, size: nat, c: Coord)
    requires ranked == Sort(seeds, SeedLe) && Contested(ranked, size)
    ensures OwnerIs(Elements(seeds), size, c, Some(ranked[Best(ranked, size, c).rank].id))
  {
    BestWins(seeds, ranked, size, c);
  }

  lemma BlankOwner(seeds: seq<Seed>, ranked: seq<Seed>, size: nat, c: Coord)
    requires ranked == Sort(seeds, SeedLe) && !Contested(ranked, size)
    ensures OwnerIs(Elements(seeds), size, c, None)
  {
    SameElements(seeds, ranked);
    forall t | t in seeds ensures !InGrid(t.position, size) {
      var i :| 0 <= i < |ranked| && ranked[i] == t;
      assert !Competes(ranked, size, i);
    }
  }

  lemma NextHead(ranked: seq<Seed>, size: nat, claimed: set<Coord>, queue: seq<Entry>, pushed: seq<Coord>)
    requires Frontier(ranked, size, claimed, queue, pushed) && queue != []
    ensures Contested(ranked, size) && InGrid(queue[0].cell, size) && queue[0].cell in claimed
    ensures queue[0].key == Best(ranked, size, queue[0].cell)
    ensures Ledger(size, claimed, queue, pushed) && |queue| <= |pushed|
  {
    assert queue[0].cell in Elements(pushed);
  }

  /** Runs the search to the end of its queue. */
  method Flood(ranked: seq<Seed>, size: nat, queue0: seq<Entry>,
               ghost claimed0: set<Coord>, ghost pushed0: seq<Coord>,
               grid: array2<Option<DroneId>>, dist: array2<int>, tie: array2<int>)
      returns (ghost claimed: set<Coord>, ghost pushed: seq<Coord>)
    requires Painted(ranked, size, claimed0, grid, dist, tie) && dist != tie
    requires Frontier(ranked, size, claimed0, queue0, pushed0)
    modifies grid, dist, tie
    ensures Painted(ranked, size, claimed, grid, dist, tie)
    ensures Frontier(ranked, size, claimed, [], pushed)
  {
    hide Expanding, Frontier, Ledger, Best;
    var queue := queue0;
    claimed, pushed := claimed0, pushed0;
    if queue != [] {
      NextHead(ranked, size, claimed, queue, pushed);
      LedgerRoom(size, claimed, queue, pushed);
    }
    while queue != []
      invariant Painted(ranked, size, claimed, grid, dist, tie)
      invariant Frontier(ranked, size, claimed, queue, pushed)
      invariant queue != [] ==> |queue| <= |pushed| <= |GridCells(size)|
      decreases if queue == [] then 0 else 1 + |GridCells(size)| - (|pushed| - |queue|)
    {
      var head := queue[0];
      NextHead(ranked, size, claimed, queue, pushed);
      PopHead(ranked, size, claimed, queue, pushed);
      queue := queue[1..];
      var c := head.cell;
      if !Less(Label(dist[c.y, c.x], tie[c.y, c.x]), head.key) {
        queue, claimed, pushed := ExpandHead(ranked, size, head, queue, claimed, pushed, grid, dist, tie);
      }
      if queue != [] {
        NextHead(ranked, size, claimed, queue, pushed);
        LedgerRoom(size, claimed, queue, pushed);
      }
    }
  }

  /** The state in which the search ends. */
  ghost predicate Settled(ranked: seq<Seed>, size: nat, claimed: set<Coord>, pushed: seq<Coord>) {
    && Distinct(pushed) && Elements(pushed) == claimed && |pushed| <= |GridCells(size)|
    && forall c :: InGrid(c, size) ==> (c in claimed <==> Contested(ranked, size))
  }

  lemma FrontierSettles(ranked: seq<Seed>, size: nat, claimed: set<Coord>, pushed: seq<Coord>)
    requires Frontier(ranked, size, claimed, [], pushed)
    ensures Settled(ranked, size, claimed, pushed)
  {
    LedgerRoom(size, claimed, [], pushed);
    forall c | InGrid(c, size) ensures c in claimed {
      NothingWaiting(ranked, size, claimed, [], pushed, c);
    }
  }

  lemma PlantedContested(ranked: seq<Seed>, size: nat, claimed: set<Coord>, queue: seq<Entry>)
    requires Planted(ranked, size, claimed, queue, |ranked|)
    ensures queue != [] ==> Contested(ranked, size)
  {
    if queue != [] {
      assert Competes(ranked, size, queue[0].key.rank);
    }
  }

  lemma NothingPlanted(ranked: seq<Seed>, size: nat, claimed: set<Coord>, queue: seq<Entry>, pushed: seq<Coord>)
    requires Planted(ranked, size, claimed, queue, |ranked|) && !Contested(ranked, size)
    requires Ledger(size, claimed, queue, pushed) && |pushed| == |queue|
    ensures queue == [] && claimed == {} && Settled(ranked, size, claimed, pushed)
  {
    PlantedContested(ranked, size, claimed, queue);
  }

  lemma SettledOwners(seeds: seq<Seed>, ranked: seq<Seed>, size: nat, claimed: set<Coord>, pushed: seq<Coord>,
                      grid: array2<Option<DroneId>>, dist: array2<int>, tie: array2<int>)
    requires ranked == Sort(seeds, SeedLe)
    requires Settled(ranked, size, claimed, pushed)
    requires Painted(ranked, size, claimed, grid, dist, tie)
    ensures forall c :: InGrid(c, size) ==> OwnerIs(Elements(seeds), size, c, grid[c.y, c.x])
    ensures forall c :: c in pushed <==> InGrid(c, size) && grid[c.y, c.x].Some?
  {
    forall c | InGrid(c, size) ensures OwnerIs(Elements(seeds), size, c, grid[c.y, c.x]) {
      if Contested(ranked, size) {
        PaintedOwner(seeds, ranked, size, c);
      } else {
        BlankOwner(seeds, ranked, size, c);
      }
    }
    assert forall c :: c in pushed <==> c in claimed;
  }

  method FloodGrid(seeds: seq<Seed>, size: nat) returns (grid: array2<Option<DroneId>>, ghost pushed: seq<Coord>)
    ensures grid.Length0 == grid.Length1 == size
    ensures forall c :: InGrid(c, size) ==> OwnerIs(Elements(seeds), size, c, grid[c.y, c.x])
    ensures Distinct(pushed) && |pushed| <= |GridCells(size)|
    ensures forall c :: c in pushed <==> InGrid(c, size) && grid[c.y, c.x].Some?
  {
    pushed := [];
    grid := new Option<DroneId>[size, size]((_, _) => None);
    if seeds == [] {
      return;
    }
    hide Frontier, Ledger, Planted, Best, Sort;
    var ranked := Sort(seeds, SeedLe);
    var dist := new int[size, size]((_, _) => -1);
    var tie := new int[size, size]((_, _) => -1);
    var queue;
    ghost var claimed;
    queue, claimed, pushed := PlantSeeds(ranked, size, grid, dist, tie);
    ghost var contested := Contested(ranked, size);
    if contested {
      PlantedFrontier(ranked, size, claimed, queue, pushed);
    } else {
      NothingPlanted(ranked, size, claimed, queue, pushed);
    }
    if queue != [] {
      claimed, pushed := Flood(ranked, size, queue, claimed, pushed, grid, dist, tie);
    }
    if contested {
      FrontierSettles(ranked, size, claimed, pushed);
    }
    SettledOwners(seeds, ranked, size, claimed, pushed, grid, dist, tie);
  }

  /** The search: every cell ends with its brute-force owner, and `pushed` shows that each claimed
      cell is labelled and queued exactly once. */
  method OwnershipGrid(seeds: seq<Seed>, size: nat) returns (grid: array2<Option<DroneId>>, ghost pushed: seq<Coord>)
    ensures grid.Length0 == grid.Length1 == size
    ensures forall c :: InGrid(c, size) ==> OwnerIs(Elements(seeds), size, c, grid[c.y, c.x])
    ensures forall c, t :: InGrid(c, size) && grid[c.y, c.x].None? && t in seeds ==> !InGrid(t.position, size)
    ensures forall c :: InGrid(c, size) && grid[c.y, c.x].Some? ==>
      exists s :: s in seeds && s.id == grid[c.y, c.x].value && InGrid(s.position, size)
                  && forall t :: t in seeds && InGrid(t.position, size) ==>
                       Manhattan(s.position, c) < Manhattan(t.position, c)
                       || (Manhattan(s.position, c) == Manhattan(t.position, c) && s.id <= t.id)
    ensures Distinct(pushed) && |pushed| <= |GridCells(size)|
    ensures forall c :: c in pushed <==> InGrid(c, size) && grid[c.y, c.x].Some?
  {
    grid, pushed := FloodGrid(seeds, size);
    forall c | InGrid(c, size) && grid[c.y, c.x].Some?
      ensures exists s :: s in seeds && s.id == grid[c.y, c.x].value && InGrid(s.position, size)
                          && forall t :: t in seeds && InGrid(t.position, size) ==>
                               Manhattan(s.position, c) < Manhattan(t.position, c)
                               || (Manhattan(s.position, c) == Manhattan(t.position, c) && s.id <= t.id)
    {
      var s :| Wins(Elements(seeds), size, c, s) && s.id == grid[c.y, c.x].value;
      NearestInWords(seeds, size, c, s);
    }
  }

  lemma NearestInWords(seeds: seq<Seed>, size: nat, c: Coord, s: Seed)
    requires Wins(Elements(seeds), size, c, s)
    ensures s in seeds && InGrid(s.position, size)
    ensures forall t :: t in seeds && InGrid(t.position, size) ==>
      Manhattan(s.position, c) < Manhattan(t.position, c)
      || (Manhattan(s.position, c) == Manhattan(t.position, c) && s.id <= t.id)
  {
    hide Manhattan, InGrid;
    assert forall t :: t in seeds ==> t in Elements(seeds);
  }
}
