/** Partitions read off the ownership grid, the way back, and the cells on region boundaries. */
module Partition {
  import opened Basics
  import opened Sorting
  import opened Voronoi

  datatype PartitionOwner = PartitionOwner(id: DroneId, cells: seq<Coord>)

  /** The seeds a table of drone positions stands for. */
  ghost function SeedSet(positions: map<DroneId, Coord>): set<Seed> {
    set id | id in positions :: Seed(id, positions[id])
  }

  ghost predicate RowMajorSorted(cells: seq<Coord>) {
    forall i, j :: 0 <= i < j < |cells| ==> RowMajorLess(cells[i], cells[j])
  }

  /** One partition per drone, in id order; its cells are the cells that drone owns, in row-major order. */
  ghost predicate IsPartition(parts: seq<PartitionOwner>, positions: map<DroneId, Coord>, size: nat) {
    && (forall i, j :: 0 <= i < j < |parts| ==> parts[i].id < parts[j].id)
    && (forall id :: id in positions ==> exists i :: 0 <= i < |parts| && parts[i].id == id)
    && (forall i :: 0 <= i < |parts| ==> parts[i].id in positions && RowMajorSorted(parts[i].cells))
    && (forall i, c :: 0 <= i < |parts| ==>
          (c in parts[i].cells <==> InGrid(c, size) && OwnerIs(SeedSet(positions), size, c, Some(parts[i].id))))
  }

  /** No cell is in two partitions; when some drone is inside the grid, every cell is in one. */
  lemma PartitionCovers(parts: seq<PartitionOwner>, positions: map<DroneId, Coord>, size: nat, c: Coord)
    requires IsPartition(parts, positions, size) && InGrid(c, size)
    ensures forall i, j :: 0 <= i < |parts| && 0 <= j < |parts| && c in parts[i].cells && c in parts[j].cells ==> i == j
    ensures (exists id :: id in positions && InGrid(positions[id], size))
            <==> exists i :: 0 <= i < |parts| && c in parts[i].cells
  {
    forall i, j | 0 <= i < |parts| && 0 <= j < |parts| && c in parts[i].cells && c in parts[j].cells
      ensures i == j
    {
      OwnerUnique(SeedSet(positions), size, c, Some(parts[i].id), Some(parts[j].id));
    }
    var owner := OwnerExists(SeedSet(positions), size, c);
    if id :| id in positions && InGrid(positions[id], size) {
      assert Seed(id, positions[id]) in SeedSet(positions);
      assert owner.Some?;
      var s :| Wins(SeedSet(positions), size, c, s) && s.id == owner.value;
      var i :| 0 <= i < |parts| && parts[i].id == s.id;
      assert c in parts[i].cells;
    }
    if i :| 0 <= i < |parts| && c in parts[i].cells {
      var s :| Wins(SeedSet(positions), size, c, s) && s.id == parts[i].id;
      assert s.id in positions && InGrid(positions[s.id], size);
    }
  }

  /** Every cell has a brute-force owner, or no seed is inside the grid. */
  lemma {:induction false} OwnerExists(seeds: set<Seed>, size: nat, c: Coord) returns (owner: Option<DroneId>)
    ensures OwnerIs(seeds, size, c, owner)
    decreases |seeds|
  {
    if seeds == {} {
      return None;
    }
    var t :| t in seeds;
    var rest := seeds - {t};
    owner := OwnerExists(rest, size, c);
    if InGrid(t.position, size) {
      if owner.None? {
        assert Wins(seeds, size, c, t);
        owner := Some(t.id);
      } else {
        var s :| Wins(rest, size, c, s) && s.id == owner.value;
        if Manhattan(t.position, c) < Manhattan(s.position, c)
           || (Manhattan(t.position, c) == Manhattan(s.position, c) && t.id <= s.id) {
          assert Wins(seeds, size, c, t);
          owner := Some(t.id);
        } else {
          assert Wins(seeds, size, c, s);
        }
      }
    } else if owner.Some? {
      var s :| Wins(rest, size, c, s) && s.id == owner.value;
      assert Wins(seeds, size, c, s);
    }
  }

  // ----- partition_grid -----

  /** The table's entries as seeds, in some order. */
  method ListSeeds(positions: map<DroneId, Coord>) returns (seeds: seq<Seed>)
    ensures Elements(seeds) == SeedSet(positions)
    ensures forall i, j :: 0 <= i < j < |seeds| ==> seeds[i].id != seeds[j].id
  {
    var ids := ListSet(positions.Keys);
    assert forall i :: 0 <= i < |ids| ==> ids[i] in Elements(ids);
    seeds := seq(|ids|, i requires 0 <= i < |ids| => Seed(ids[i], positions[ids[i]]));
    forall s ensures s in Elements(seeds) <==> s in SeedSet(positions) {
      if s in SeedSet(positions) {
        assert s.id in Elements(ids);
        var i :| 0 <= i < |ids| && ids[i] == s.id;
        assert seeds[i] == s;
      }
    }
  }

  /** The cells before (x, y) in row-major order that the grid shows as owned by id, listed in that order. */
  ghost predicate Collected(grid: array2<Option<DroneId>>, id: DroneId, cells: seq<Coord>, x: int, y: int)
    reads grid
    requires grid.Length0 == grid.Length1
  {
    && RowMajorSorted(cells)
    && forall c :: c in cells <==>
         InGrid(c, grid.Length0) && RowMajorLess(c, Coord(x, y)) && grid[c.y, c.x] == Some(id)
  }

  lemma NothingCollected(grid: array2<Option<DroneId>>, id: DroneId)
    requires grid.Length0 == grid.Length1
    ensures Collected(grid, id, [], 0, 0)
  {}

  lemma CollectedNextRow(grid: array2<Option<DroneId>>, id: DroneId, cells: seq<Coord>, y: int)
    requires grid.Length0 == grid.Length1
    requires Collected(grid, id, cells, grid.Length0, y)
    ensures Collected(grid, id, cells, 0, y + 1)
  {}

  lemma CollectedNext(grid: array2<Option<DroneId>>, id: DroneId, cells: seq<Coord>, x: int, y: int)
    requires grid.Length0 == grid.Length1 && InGrid(Coord(x, y), grid.Length0)
    requires Collected(grid, id, cells, x, y)
    ensures grid[y, x] != Some(id) ==> Collected(grid, id, cells, x + 1, y)
    ensures grid[y, x] == Some(id) ==> Collected(grid, id, cells + [Coord(x, y)], x + 1, y)
  {
    var here := Coord(x, y);
    forall c ensures RowMajorLess(c, Coord(x + 1, y)) <==> RowMajorLess(c, here) || c == here {}
  }

  lemma OwnersAreDrones(positions: map<DroneId, Coord>, size: nat, c: Coord, id: DroneId)
    requires OwnerIs(SeedSet(positions), size, c, Some(id))
    ensures id in positions
  {
    var s :| Wins(SeedSet(positions), size, c, s) && s.id == id;
  }

  /** Groups the cells of an ownership grid by owner. */
  method GroupByOwner(grid: array2<Option<DroneId>>, keys: set<DroneId>) returns (grouped: map<DroneId, seq<Coord>>)
    requires grid.Length0 == grid.Length1
    requires forall c, id :: InGrid(c, grid.Length0) && grid[c.y, c.x] == Some(id) ==> id in keys
    ensures grouped.Keys == keys
    ensures forall id :: id in keys ==> Collected(grid, id, grouped[id], 0, grid.Length0)
  {
    hide Collected;
    var size := grid.Length0;
    grouped := map id | id in keys :: [];
    forall id ensures Collected(grid, id, [], 0, 0) {
      NothingCollected(grid, id);
    }
    for y := 0 to size
      invariant grouped.Keys == keys
      invariant forall id :: id in keys ==> Collected(grid, id, grouped[id], 0, y)
    {
      for x := 0 to size
        invariant grouped.Keys == keys
        invariant forall id :: id in keys ==> Collected(grid, id, grouped[id], x, y)
      {
        assert InGrid(Coord(x, y), size);
        forall id | id in keys ensures grid[y, x] != Some(id) ==> Collected(grid, id, grouped[id], x + 1, y) {
          CollectedNext(grid, id, grouped[id], x, y);
        }
        if grid[y, x].Some? {
          var owner := grid[y, x].value;
          CollectedNext(grid, owner, grouped[owner], x, y);
          grouped := grouped[owner := grouped[owner] + [Coord(x, y)]];
        }
      }
      forall id | id in keys ensures Collected(grid, id, grouped[id], 0, y + 1) {
        CollectedNextRow(grid, id, grouped[id], y);
      }
    }
  }

  lemma GroupsFormPartition(parts: seq<PartitionOwner>, positions: map<DroneId, Coord>, grid: array2<Option<DroneId>>)
    requires grid.Length0 == grid.Length1
    requires forall c :: InGrid(c, grid.Length0) ==> OwnerIs(SeedSet(positions), grid.Length0, c, grid[c.y, c.x])
    requires forall i, j :: 0 <= i < j < |parts| ==> parts[i].id < parts[j].id
    requires forall id :: id in positions ==> exists i :: 0 <= i < |parts| && parts[i].id == id
    requires forall i :: 0 <= i < |parts| ==>
      parts[i].id in positions && Collected(grid, parts[i].id, parts[i].cells, 0, grid.Length0)
    ensures IsPartition(parts, positions, grid.Length0)
  {
    var size := grid.Length0;
    forall i, c | 0 <= i < |parts|
      ensures c in parts[i].cells <==> InGrid(c, size) && OwnerIs(SeedSet(positions), size, c, Some(parts[i].id))
    {
      if InGrid(c, size) && OwnerIs(SeedSet(positions), size, c, Some(parts[i].id)) {
        OwnerUnique(SeedSet(positions), size, c, grid[c.y, c.x], Some(parts[i].id));
      }
    }
  }

  lemma ListedIds(positions: map<DroneId, Coord>, seeds: seq<Seed>, listed: seq<DroneId>)
    requires Elements(seeds) == SeedSet(positions)
    requires forall i, j :: 0 <= i < j < |seeds| ==> seeds[i].id != seeds[j].id
    requires |listed| == |seeds| && forall i :: 0 <= i < |seeds| ==> listed[i] == seeds[i].id
    ensures Distinct(listed)
    ensures forall id :: id in listed <==> id in positions
  {
    forall id ensures id in listed <==> id in positions {
      if id in positions {
        assert Seed(id, positions[id]) in Elements(seeds);
        var i :| 0 <= i < |seeds| && seeds[i] == Seed(id, positions[id]);
        assert listed[i] == id;
      }
      if id in listed {
        var i :| 0 <= i < |listed| && listed[i] == id;
        assert seeds[i] in Elements(seeds);
      }
    }
  }

  method PartitionGrid(size: nat, positions: map<DroneId, Coord>) returns (parts: seq<PartitionOwner>)
    ensures IsPartition(parts, positions, size)
  {
    hide OwnerIs, Sort, Collected, IsPartition, SeedSet, Distinct;
    var seeds := ListSeeds(positions);
    var grid, _ := OwnershipGrid(seeds, size);
    forall c, id | InGrid(c, grid.Length0) && grid[c.y, c.x] == Some(id) ensures id in positions.Keys {
      OwnersAreDrones(positions, size, c, id);
    }
    var grouped := GroupByOwner(grid, positions.Keys);
    var listed := seq(|seeds|, i requires 0 <= i < |seeds| => seeds[i].id);
    ListedIds(positions, seeds, listed);
    SortedIds(listed);
    var ids := Sort(listed, IdLe);
    parts := seq(|ids|, i requires 0 <= i < |ids| =>
      PartitionOwner(ids[i], if ids[i] in grouped then grouped[ids[i]] else []));
    forall id | id in positions ensures exists i :: 0 <= i < |parts| && parts[i].id == id {
      assert id in ids;
      var i :| 0 <= i < |ids| && ids[i] == id;
      assert parts[i].id == id;
    }
    forall i | 0 <= i < |parts|
      ensures parts[i].id in positions && Collected(grid, parts[i].id, parts[i].cells, 0, grid.Length0)
    {
      assert ids[i] in ids;
    }
    GroupsFormPartition(parts, positions, grid);
  }

  /** A drone's partition lists, row by row, the cells nearer to it than to every other drone inside the grid,
      and those as near of which it has the smallest id. */
  lemma PartitionInWords(parts: seq<PartitionOwner>, positions: map<DroneId, Coord>, size: nat, i: nat)
    requires IsPartition(parts, positions, size) && i < |parts|
    ensures parts[i].id in positions
    ensures forall j, k :: 0 <= j < k < |parts[i].cells| ==>
      var a, b := parts[i].cells[j], parts[i].cells[k];
      a.y < b.y || (a.y == b.y && a.x < b.x)
    ensures forall c :: c in parts[i].cells <==>
      && InGrid(c, size) && InGrid(positions[parts[i].id], size)
      && forall id :: id in positions && InGrid(positions[id], size) ==>
           || Manhattan(positions[parts[i].id], c) < Manhattan(positions[id], c)
           || (Manhattan(positions[parts[i].id], c) == Manhattan(positions[id], c) && parts[i].id <= id)
  {
    var me := parts[i].id;
    forall c
      ensures c in parts[i].cells <==>
        && InGrid(c, size) && InGrid(positions[me], size)
        && forall id :: id in positions && InGrid(positions[id], size) ==>
             || Manhattan(positions[me], c) < Manhattan(positions[id], c)
             || (Manhattan(positions[me], c) == Manhattan(positions[id], c) && me <= id)
    {
      OwnedExactly(positions, size, c, me);
    }
  }

  lemma OwnedExactly(positions: map<DroneId, Coord>, size: nat, c: Coord, me: DroneId)
    requires me in positions
    ensures OwnerIs(SeedSet(positions), size, c, Some(me)) <==>
      && InGrid(positions[me], size)
      && forall id :: id in positions && InGrid(positions[id], size) ==>
           || Manhattan(positions[me], c) < Manhattan(positions[id], c)
           || (Manhattan(positions[me], c) == Manhattan(positions[id], c) && me <= id)
  {
    var own := Seed(me, positions[me]);
    assert own in SeedSet(positions);
    if OwnerIs(SeedSet(positions), size, c, Some(me)) {
      var s :| Wins(SeedSet(positions), size, c, s) && s.id == me;
      assert s == own;
      forall id | id in positions && InGrid(positions[id], size)
        ensures Manhattan(own.position, c) < Manhattan(positions[id], c)
                || (Manhattan(own.position, c) == Manhattan(positions[id], c) && me <= id)
      {
        assert Seed(id, positions[id]) in SeedSet(positions);
      }
    } else {
      assert !Wins(SeedSet(positions), size, c, own);
    }
  }

  // ----- back to a grid -----

  /** The last partition that lists the cell. */
  ghost function LastListing(parts: seq<PartitionOwner>, c: Coord): Option<DroneId> {
    if parts == [] then None
    else if c in parts[|parts| - 1].cells then Some(parts[|parts| - 1].id)
    else LastListing(parts[..|parts| - 1], c)
  }

  /** A list index into a row or column: negative ones count from the end, as in Python. */
  predicate WrapsTo(d: Coord, size: nat, c: Coord) {
    InGrid(c, size) && (d.x == c.x || d.x == c.x - size) && (d.y == c.y || d.y == c.y - size)
  }

  predicate InReach(d: Coord, size: nat) {
    0 <= d.x + size < 2 * size && 0 <= d.y + size < 2 * size
  }

  function Wrapped(d: Coord, size: nat): (c: Coord)
    requires InReach(d, size)
    ensures forall e :: WrapsTo(d, size, e) <==> e == c
  {
    Coord(if d.x < 0 then d.x + size else d.x, if d.y < 0 then d.y + size else d.y)
  }

  /** Python's rule: an index from -size up to size - 1 names the place of its remainder by the size. */
  lemma NegativeIndices(d: Coord, size: nat)
    ensures InReach(d, size) <==> -(size as int) <= d.x < size && -(size as int) <= d.y < size
    ensures InReach(d, size) ==> size > 0 && WrapsTo(d, size, Coord(d.x % size, d.y % size))
  {
    if InReach(d, size) {
      Remainder(d.x, size);
      Remainder(d.y, size);
    }
  }

  lemma Scaled(n: nat, size: nat)
    ensures n * size >= 0 && (n + 1) * size == n * size + size && (n + 2) * size == n * size + size + size
  {}

  lemma Remainder(i: int, size: nat)
    requires size > 0 && -(size as int) <= i < size
    ensures i % size == if i < 0 then i + size else i
  {
    var q := i / size;
    assert i == q * size + i % size;
    if q > 0 {
      Scaled(q - 1, size);
    } else if q < -1 {
      Scaled(-2 - q, size);
    }
  }

  ghost predicate Lists(cells: seq<Coord>, size: nat, c: Coord) {
    exists d :: d in cells && WrapsTo(d, size, c)
  }

  /** The last partition that writes the cell. */
  ghost function LastWriting(parts: seq<PartitionOwner>, size: nat, c: Coord): Option<DroneId> {
    if parts == [] then None
    else if Lists(parts[|parts| - 1].cells, size, c) then Some(parts[|parts| - 1].id)
    else LastWriting(parts[..|parts| - 1], size, c)
  }

  /** Of several partitions that write a cell, the last one is seen. */
  lemma {:induction false} LastWritingExactly(parts: seq<PartitionOwner>, size: nat, c: Coord, p: nat)
    requires p < |parts|
    requires forall q :: p < q < |parts| ==> !Lists(parts[q].cells, size, c)
    ensures Lists(parts[p].cells, size, c) ==> LastWriting(parts, size, c) == Some(parts[p].id)
    ensures p == 0 && !Lists(parts[p].cells, size, c) ==> LastWriting(parts, size, c) == None
    decreases |parts|
  {
    if p < |parts| - 1 {
      LastWritingExactly(parts[..|parts| - 1], size, c, p);
    }
  }

  ghost predicate AllInReach(parts: seq<PartitionOwner>, size: nat) {
    forall i, d :: 0 <= i < |parts| && d in parts[i].cells ==> InReach(d, size)
  }

  /** False stands for the error raised at a cell that no index reaches. */
  method GridFromPartitions(parts: seq<PartitionOwner>, size: nat) returns (ok: bool, owners: array2<Option<DroneId>>)
    ensures ok <==> AllInReach(parts, size)
    ensures owners.Length0 == owners.Length1 == size
    ensures ok ==> forall c :: InGrid(c, size) ==> owners[c.y, c.x] == LastWriting(parts, size, c)
  {
    owners := new Option<DroneId>[size, size]((_, _) => None);
    for p := 0 to |parts|
      invariant fresh(owners)
      invariant forall i, d :: 0 <= i < p && d in parts[i].cells ==> InReach(d, size)
      invariant forall c :: InGrid(c, size) ==> owners[c.y, c.x] == LastWriting(parts[..p], size, c)
    {
      var cells := parts[p].cells;
      for k := 0 to |cells|
        invariant fresh(owners)
        invariant forall d :: d in cells[..k] ==> InReach(d, size)
        invariant forall c :: InGrid(c, size) ==>
          owners[c.y, c.x] == if Lists(cells[..k], size, c) then Some(parts[p].id) else LastWriting(parts[..p], size, c)
      {
        if !InReach(cells[k], size) {
          assert cells[k] in parts[p].cells;
          return false, owners;
        }
        var c := Wrapped(cells[k], size);
        owners[c.y, c.x] := Some(parts[p].id);
        OneMoreListed(cells, k, size);
      }
      assert cells[..|cells|] == cells;
      assert parts[..p + 1][..p] == parts[..p];
    }
    assert parts[..|parts|] == parts;
    ok := true;
  }

  lemma OneMoreListed(cells: seq<Coord>, k: nat, size: nat)
    requires k < |cells| && InReach(cells[k], size)
    ensures forall c :: Lists(cells[..k + 1], size, c) <==> Lists(cells[..k], size, c) || c == Wrapped(cells[k], size)
    ensures forall d :: d in cells[..k + 1] <==> d in cells[..k] || d == cells[k]
  {
    assert cells[..k + 1] == cells[..k] + [cells[k]];
    forall c ensures Lists(cells[..k + 1], size, c) <==> Lists(cells[..k], size, c) || c == Wrapped(cells[k], size) {
      assert WrapsTo(cells[k], size, c) <==> c == Wrapped(cells[k], size);
      if d :| d in cells[..k + 1] && WrapsTo(d, size, c) {
        assert d in cells[..k] || d == cells[k];
      }
      if d :| d in cells[..k] && WrapsTo(d, size, c) {
        assert d in cells[..k + 1];
      }
      if WrapsTo(cells[k], size, c) {
        assert cells[k] in cells[..k + 1];
      }
    }
  }

  /** Inside the grid nothing wraps. */
  lemma {:induction false} WritingIsListing(parts: seq<PartitionOwner>, size: nat, c: Coord)
    requires forall i, d :: 0 <= i < |parts| && d in parts[i].cells ==> InGrid(d, size)
    requires InGrid(c, size)
    ensures LastWriting(parts, size, c) == LastListing(parts, c)
    decreases |parts|
  {
    if parts != [] {
      WritingIsListing(parts[..|parts| - 1], size, c);
      var cells := parts[|parts| - 1].cells;
      assert WrapsTo(c, size, c);
      if d :| d in cells && WrapsTo(d, size, c) {
        assert InGrid(d, size) && d == c;
      }
    }
  }

  lemma {:induction false} LastListingIsListing(parts: seq<PartitionOwner>, c: Coord)
    ensures match LastListing(parts, c)
            case None => forall i :: 0 <= i < |parts| ==> c !in parts[i].cells
            case Some(id) => exists i :: 0 <= i < |parts| && c in parts[i].cells && parts[i].id == id
  {
    if parts != [] && c !in parts[|parts| - 1].cells {
      LastListingIsListing(parts[..|parts| - 1], c);
    }
  }

  /** Rebuilding a grid from the partitions gives back the owners the search found. */
  lemma PartitionRoundTrip(parts: seq<PartitionOwner>, positions: map<DroneId, Coord>, size: nat, c: Coord)
    requires IsPartition(parts, positions, size) && InGrid(c, size)
    ensures OwnerIs(SeedSet(positions), size, c, LastListing(parts, c))
  {
    LastListingIsListing(parts, c);
    PartitionCovers(parts, positions, size, c);
    if LastListing(parts, c).None? {
      forall t | t in SeedSet(positions) ensures !InGrid(t.position, size) {}
    }
  }

  // ----- boundary cells -----

  /** The cell has a 4-neighbour in the grid that shows a different owner. */
  ghost predicate OnBoundary(owners: array2<Option<DroneId>>, c: Coord)
    reads owners
  {
    && 0 <= c.x < owners.Length1 && 0 <= c.y < owners.Length0
    && exists n :: Adjacent(c, n) && 0 <= n.x < owners.Length1 && 0 <= n.y < owners.Length0
                   && owners[n.y, n.x] != owners[c.y, c.x]
  }

  lemma NeighboursAre(c: Coord, n: Coord)
    ensures Adjacent(c, n) <==>
      n == Coord(c.x - 1, c.y) || n == Coord(c.x + 1, c.y) || n == Coord(c.x, c.y - 1) || n == Coord(c.x, c.y + 1)
  {
    if Adjacent(c, n) {
      assert n == Coord(n.x, n.y);
    }
  }

  method DiffersFromNeighbour(owners: array2<Option<DroneId>>, x: nat, y: nat) returns (differs: bool)
    requires x < owners.Length1 && y < owners.Length0
    ensures differs <==> OnBoundary(owners, Coord(x, y))
  {
    NeighbourDiffers(owners, Coord(x, y));
    var owner := owners[y, x];
    var neighbours := [];
    if x > 0 {
      neighbours := neighbours + [owners[y, x - 1]];
    }
    ghost var west := x > 0 && owners[y, x - 1] != owner;
    assert neighbours == if x > 0 then [owners[y, x - 1]] else [];
    assert x > 0 ==> neighbours[0] == owners[y, x - 1];
    assert AnyOther(neighbours, owner) == west;
    if x + 1 < owners.Length1 {
      AnyOtherAppend(neighbours, owners[y, x + 1], owner);
      neighbours := neighbours + [owners[y, x + 1]];
    }
    ghost var east := x + 1 < owners.Length1 && owners[y, x + 1] != owner;
    assert AnyOther(neighbours, owner) == (west || east);
    if y > 0 {
      AnyOtherAppend(neighbours, owners[y - 1, x], owner);
      neighbours := neighbours + [owners[y - 1, x]];
    }
    ghost var north := y > 0 && owners[y - 1, x] != owner;
    assert AnyOther(neighbours, owner) == (west || east || north);
    if y + 1 < owners.Length0 {
      AnyOtherAppend(neighbours, owners[y + 1, x], owner);
      neighbours := neighbours + [owners[y + 1, x]];
    }
    differs := AnyOther(neighbours, owner);
  }

  predicate AnyOther(neighbours: seq<Option<DroneId>>, owner: Option<DroneId>) {
    exists k :: 0 <= k < |neighbours| && neighbours[k] != owner
  }

  lemma AnyOtherAppend(neighbours: seq<Option<DroneId>>, next: Option<DroneId>, owner: Option<DroneId>)
    ensures AnyOther(neighbours + [next], owner) == (AnyOther(neighbours, owner) || next != owner)
  {
    var all := neighbours + [next];
    assert all[|neighbours|] == next;
    assert forall k :: 0 <= k < |neighbours| ==> all[k] == neighbours[k];
  }

  lemma NeighbourDiffers(owners: array2<Option<DroneId>>, c: Coord)
    requires 0 <= c.x < owners.Length1 && 0 <= c.y < owners.Length0
    ensures OnBoundary(owners, c) <==>
      || (c.x > 0 && owners[c.y, c.x - 1] != owners[c.y, c.x])
      || (c.x + 1 < owners.Length1 && owners[c.y, c.x + 1] != owners[c.y, c.x])
      || (c.y > 0 && owners[c.y - 1, c.x] != owners[c.y, c.x])
      || (c.y + 1 < owners.Length0 && owners[c.y + 1, c.x] != owners[c.y, c.x])
  {
    hide Adjacent;
    NeighboursAre(c, Coord(c.x - 1, c.y));
    NeighboursAre(c, Coord(c.x + 1, c.y));
    NeighboursAre(c, Coord(c.x, c.y - 1));
    NeighboursAre(c, Coord(c.x, c.y + 1));
    forall n | Adjacent(c, n)
      ensures n == Coord(c.x - 1, c.y) || n == Coord(c.x + 1, c.y) || n == Coord(c.x, c.y - 1)
          || n == Coord(c.x, c.y + 1)
    {
      NeighboursAre(c, n);
    }
  }

  /** The boundary cells, in ascending coordinate order and without repetition. */
  method BoundaryOfGrid(owners: array2<Option<DroneId>>) returns (boundaries: seq<Coord>)
    ensures Ascending(boundaries)
    ensures forall c :: c in boundaries <==> OnBoundary(owners, c)
  {
    hide Sort, Ascending, Distinct, Adjacent;
    var found: set<Coord> := {};
    assert forall c :: OnBoundary(owners, c) ==> 0 <= c.x < owners.Length1 && 0 <= c.y < owners.Length0;
    hide OnBoundary;
    for y := 0 to owners.Length0
      invariant forall c :: c in found <==> OnBoundary(owners, c) && c.y < y
    {
      for x := 0 to owners.Length1
        invariant forall c :: c in found <==> OnBoundary(owners, c) && (c.y < y || (c.y == y && c.x < x))
      {
        var differs := DiffersFromNeighbour(owners, x, y);
        if differs {
          found := found + {Coord(x, y)};
        }
      }
    }
    var listed := ListSet(found);
    SortAscending(listed);
    boundaries := Sort(listed, TupleLe);
    assert forall c :: c in boundaries <==> c in Elements(boundaries);
  }

  datatype BoundarySource =
    | FromGrid(owners: array2<Option<DroneId>>)
    | FromPartitions(parts: seq<PartitionOwner>)

  /** The errors: no size given for partitions, or a cell listed that the grid cannot index. */
  datatype BoundaryOutcome = Boundary(cells: seq<Coord>) | SizeMissing | OutOfReach

  method BoundaryCells(source: BoundarySource, size: Option<nat>) returns (r: BoundaryOutcome)
    ensures r.SizeMissing? <==> source.FromPartitions? && source.parts != [] && size.None?
    ensures r.OutOfReach? <==> source.FromPartitions? && size.Some? && !AllInReach(source.parts, size.value)
    ensures r.Boundary? ==> Ascending(r.cells)
    ensures source.FromGrid? ==> forall c :: c in r.cells <==> OnBoundary(source.owners, c)
    ensures source.FromPartitions? && r.Boundary? && size.Some? ==>
      forall c :: c in r.cells <==> ListedBoundary(source.parts, size.value, c)
  {
    if source.FromPartitions? && source.parts == [] {
      return Boundary([]);
    }
    var owners;
    if source.FromPartitions? {
      if size.None? {
        return SizeMissing;
      }
      var ok;
      ok, owners := GridFromPartitions(source.parts, size.value);
      if !ok {
        return OutOfReach;
      }
      forall c ensures OnBoundary(owners, c) <==> ListedBoundary(source.parts, size.value, c) {}
    } else {
      owners := source.owners;
    }
    var boundaries := BoundaryOfGrid(owners);
    r := Boundary(boundaries);
  }

  /** Boundary membership computed from the partitions alone. */
  ghost predicate ListedBoundary(parts: seq<PartitionOwner>, size: nat, c: Coord) {
    && InGrid(c, size)
    && exists n :: Adjacent(c, n) && InGrid(n, size) && LastWriting(parts, size, n) != LastWriting(parts, size, c)
  }

  lemma AscendingUnique(a: seq<Coord>, b: seq<Coord>)
    requires Ascending(a) && Ascending(b) && forall c :: c in a <==> c in b
    ensures a == b
  {
    DistinctMultiset(a, b);
    SortedUnique(a, b, TupleLe);
  }

  lemma DistinctMultiset(a: seq<Coord>, b: seq<Coord>)
    requires Distinct(a) && Distinct(b) && forall c :: c in a <==> c in b
    ensures multiset(a) == multiset(b)
  {
    forall c ensures multiset(a)[c] == multiset(b)[c] {
      DistinctOnce(a, c);
      DistinctOnce(b, c);
    }
  }

  lemma {:induction false} DistinctOnce(a: seq<Coord>, c: Coord)
    requires Distinct(a)
    ensures multiset(a)[c] == if c in a then 1 else 0
  {
    if a != [] {
      assert a == [a[0]] + a[1..];
      DistinctOnce(a[1..], c);
    }
  }

  /** Boundaries computed from the searched grid and from the partitions are the same list. */
  lemma BoundariesAgree(parts: seq<PartitionOwner>, positions: map<DroneId, Coord>, grid: array2<Option<DroneId>>,
                        fromGrid: seq<Coord>, fromParts: seq<Coord>)
    requires grid.Length0 == grid.Length1 && IsPartition(parts, positions, grid.Length0)
    requires forall c :: InGrid(c, grid.Length0) ==> OwnerIs(SeedSet(positions), grid.Length0, c, grid[c.y, c.x])
    requires Ascending(fromGrid) && forall c :: c in fromGrid <==> OnBoundary(grid, c)
    requires Ascending(fromParts) && forall c :: c in fromParts <==> ListedBoundary(parts, grid.Length0, c)
    ensures fromGrid == fromParts
  {
    var size := grid.Length0;
    forall c | InGrid(c, size) ensures grid[c.y, c.x] == LastListing(parts, c) {
      PartitionRoundTrip(parts, positions, size, c);
      OwnerUnique(SeedSet(positions), size, c, grid[c.y, c.x], LastListing(parts, c));
    }
    forall c | InGrid(c, size) ensures LastWriting(parts, size, c) == LastListing(parts, c) {
      WritingIsListing(parts, size, c);
    }
    forall c ensures c in fromGrid <==> c in fromParts {}
    AscendingUnique(fromGrid, fromParts);
  }
}
