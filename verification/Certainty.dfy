/** The certainty map: a grid of timestamped beliefs that decays, is searched, and is merged. */
module Certainty {
  import opened Basics

  /** What one cell records. */
  datatype CellState = CellState(certainty: real, lastUpdatedMs: int, updatedBy: DroneId, decayRate: real)

  /** What a peer sends about one cell. */
  datatype CellPayload = CellPayload(cell: Coord, certainty: real, lastUpdatedMs: int)

  function Clamp(value: real): real {
    if value > 1.0 then 1.0 else if value < 0.0 then 0.0 else value
  }

  // ----- the order that merging follows -----

  datatype Key = Key(ts: int, certainty: real)

  predicate KeyLess(a: Key, b: Key) {
    a.ts < b.ts || (a.ts == b.ts && a.certainty < b.certainty)
  }

  function Later(a: Key, b: Key): Key {
    if KeyLess(a, b) then b else a
  }

  function KeyOf(cell: CellState): Key {
    Key(cell.lastUpdatedMs, cell.certainty)
  }

  /** The key a written payload leaves behind. */
  function PayloadKey(p: CellPayload): Key {
    Key(p.lastUpdatedMs, Clamp(p.certainty))
  }

  predicate InUnit(cell: CellState) {
    0.0 <= cell.certainty <= 1.0
  }

  // ----- what happens to one cell -----

  function Written(cell: CellState, certainty: real, author: DroneId, nowMs: int): CellState {
    cell.(certainty := Clamp(certainty), updatedBy := author, lastUpdatedMs := nowMs)
  }

  /** The share of certainty a cell loses in some time. */
  function Loss(cell: CellState, seconds: real): real {
    cell.decayRate * seconds
  }

  function Faded(certainty: real, loss: real): real {
    certainty * (1.0 - loss)
  }

  function Decayed(cell: CellState, seconds: real, nowMs: int): CellState {
    Written(cell, Faded(cell.certainty, Loss(cell, seconds)), cell.updatedBy, nowMs)
  }

  function Merged(cell: CellState, certainty: real, ts: int, author: DroneId): CellState {
    if ts > cell.lastUpdatedMs || (ts == cell.lastUpdatedMs && certainty > cell.certainty)
    then Written(cell, certainty, author, ts)
    else cell
  }

  /** Merging into a clamped cell takes the later of the two keys, whatever certainty comes in: the greater
      time, and of two certainties at one time the greater. */
  lemma MergeIsJoin(cell: CellState, p: CellPayload, author: DroneId)
    requires InUnit(cell)
    ensures var merged := Merged(cell, p.certainty, p.lastUpdatedMs, author);
      && (p.lastUpdatedMs < cell.lastUpdatedMs ==> merged == cell)
      && (p.lastUpdatedMs == cell.lastUpdatedMs && p.certainty <= cell.certainty ==> merged == cell)
      && (p.lastUpdatedMs > cell.lastUpdatedMs
          || (p.lastUpdatedMs == cell.lastUpdatedMs && p.certainty > cell.certainty) ==>
            merged.lastUpdatedMs == p.lastUpdatedMs && merged.updatedBy == author
            && (0.0 <= p.certainty <= 1.0 ==> merged.certainty == p.certainty))
    ensures KeyOf(Merged(cell, p.certainty, p.lastUpdatedMs, author)) == Later(KeyOf(cell), PayloadKey(p))
    ensures InUnit(Merged(cell, p.certainty, p.lastUpdatedMs, author))
    ensures Merged(cell, p.certainty, p.lastUpdatedMs, author).decayRate == cell.decayRate
  {}

  /** All payloads about one cell, merged in turn. */
  function MergedAll(cell: CellState, payloads: seq<CellPayload>, author: DroneId, c: Coord): CellState
    decreases |payloads|
  {
    if payloads == [] then cell
    else
      var p := payloads[0];
      var next := if p.cell == c then Merged(cell, p.certainty, p.lastUpdatedMs, author) else cell;
      MergedAll(next, payloads[1..], author, c)
  }

  lemma {:induction false} MergedAllAppend(cell: CellState, a: seq<CellPayload>, b: seq<CellPayload>, author: DroneId,
                                           c: Coord)
    ensures MergedAll(cell, a + b, author, c) == MergedAll(MergedAll(cell, a, author, c), b, author, c)
    decreases |a|
  {
    if a == [] {
      assert a + b == b;
    } else {
      assert (a + b)[1..] == a[1..] + b;
      var p := a[0];
      var next := if p.cell == c then Merged(cell, p.certainty, p.lastUpdatedMs, author) else cell;
      MergedAllAppend(next, a[1..], b, author, c);
    }
  }

  /** The latest of a starting key and the keys of the payloads about the cell. */
  ghost predicate IsLatest(r: Key, start: Key, payloads: seq<CellPayload>, c: Coord) {
    && !KeyLess(r, start)
    && (forall i :: 0 <= i < |payloads| && payloads[i].cell == c ==> !KeyLess(r, PayloadKey(payloads[i])))
    && (r == start || exists i :: 0 <= i < |payloads| && payloads[i].cell == c && r == PayloadKey(payloads[i]))
  }

  /** Merging any list of payloads leaves the latest key among them and the cell's own. Nothing else
      about the list matters: not its order, nor repetitions. */
  lemma {:induction false} MergedAllIsLatest(cell: CellState, payloads: seq<CellPayload>, author: DroneId, c: Coord)
    requires InUnit(cell)
    ensures IsLatest(KeyOf(MergedAll(cell, payloads, author, c)), KeyOf(cell), payloads, c)
    ensures InUnit(MergedAll(cell, payloads, author, c))
    decreases |payloads|
  {
    if payloads != [] {
      var p := payloads[0];
      var next := if p.cell == c then Merged(cell, p.certainty, p.lastUpdatedMs, author) else cell;
      MergeIsJoin(cell, p, author);
      MergedAllIsLatest(next, payloads[1..], author, c);
      var r := KeyOf(MergedAll(next, payloads[1..], author, c));
      forall i | 0 <= i < |payloads| && payloads[i].cell == c ensures !KeyLess(r, PayloadKey(payloads[i])) {
        assert i > 0 ==> payloads[i] == payloads[1..][i - 1];
      }
      if r != KeyOf(next) {
        var i :| 0 <= i < |payloads[1..]| && payloads[1..][i].cell == c && r == PayloadKey(payloads[1..][i]);
        assert payloads[i + 1] == payloads[1..][i];
      }
    }
  }

  lemma LatestUnique(r: Key, s: Key, start: Key, a: seq<CellPayload>, b: seq<CellPayload>, c: Coord)
    requires IsLatest(r, start, a, c) && IsLatest(s, start, b, c)
    requires forall p: CellPayload :: p.cell == c ==> (p in a <==> p in b)
    ensures r == s
  {
    hide Clamp;
    if r != start {
      var i :| 0 <= i < |a| && a[i].cell == c && r == PayloadKey(a[i]);
      assert a[i] in b;
    }
    if s != start {
      var i :| 0 <= i < |b| && b[i].cell == c && s == PayloadKey(b[i]);
      assert b[i] in a;
    }
  }

  /** Two receivers that start alike and hear the same payloads, in any order and any number of times,
      agree on every cell's certainty and timestamp. */
  lemma MergeConverges(cell: CellState, a: seq<CellPayload>, b: seq<CellPayload>, author: DroneId, author': DroneId,
                       c: Coord)
    requires InUnit(cell) && forall p :: p in a <==> p in b
    ensures KeyOf(MergedAll(cell, a, author, c)) == KeyOf(MergedAll(cell, b, author', c))
  {
    MergedAllIsLatest(cell, a, author, c);
    MergedAllIsLatest(cell, b, author', c);
    LatestUnique(KeyOf(MergedAll(cell, a, author, c)), KeyOf(MergedAll(cell, b, author', c)), KeyOf(cell), a, b, c);
  }

  // ----- whole maps -----

  type Cells = map<Coord, CellState>

  ghost predicate AllInUnit(cells: Cells) {
    forall c :: c in cells ==> InUnit(cells[c])
  }

  function DecayedCells(cells: Cells, seconds: real, nowMs: int, skip: set<Coord>): Cells {
    map c | c in cells :: if c in skip then cells[c] else Decayed(cells[c], seconds, nowMs)
  }

  function MergedCells(cells: Cells, payloads: seq<CellPayload>, author: DroneId): Cells {
    map c | c in cells :: MergedAll(cells[c], payloads, author, c)
  }

  function JoinedCells(cells: Cells, other: Cells): Cells {
    map c | c in cells ::
      if c in other then Merged(cells[c], other[c].certainty, other[c].lastUpdatedMs, other[c].updatedBy) else cells[c]
  }

  /** A map's cells in the order in which they are visited. */
  function GridOrder(size: nat): (order: seq<Coord>)
    ensures forall c :: c in order <==> InGrid(c, size)
  {
    CellsOfRows(size, size)
  }

  /** A pass over the cells of one map stops at the first that lies outside another. */
  ghost predicate Stopped(visited: nat, size: nat, ok: bool, done: nat) {
    var order := GridOrder(visited);
    && done <= |order| && (ok <==> done == |order|)
    && (forall k :: 0 <= k < done ==> InGrid(order[k], size))
    && (!ok ==> !InGrid(order[done], size))
  }

  function Only(cells: Cells, coords: seq<Coord>): Cells {
    map c | c in cells && c in coords :: cells[c]
  }

  lemma GridOrderOnce(size: nat)
    ensures Distinct(GridOrder(size))
  {
    RowsDistinct(size, size);
  }

  lemma NothingJoined(was: Cells, theirs: Cells, order: seq<Coord>)
    ensures was == JoinedCells(was, Only(theirs, order[..0]))
  {}

  lemma NextJoined(was: Cells, theirs: Cells, before: Cells, order: seq<Coord>, i: nat)
    requires Distinct(order) && i < |order| && before == JoinedCells(was, Only(theirs, order[..i]))
    requires order[i] in was && order[i] in theirs
    ensures var c := order[i];
      before[c := Merged(before[c], theirs[c].certainty, theirs[c].lastUpdatedMs, theirs[c].updatedBy)]
      == JoinedCells(was, Only(theirs, order[..i + 1]))
  {
    hide Merged;
    assert order[..i + 1] == order[..i] + [order[i]];
    assert order[i] !in order[..i];
  }

  lemma PutBack(cells: Cells, c: Coord)
    requires c in cells
    ensures cells[c := cells[c]] == cells
  {}

  lemma NothingTaken(was: Cells, theirs: Cells, order: seq<Coord>)
    ensures was == was + Only(theirs, order[..0])
  {}

  lemma NextTaken(was: Cells, theirs: Cells, order: seq<Coord>, i: nat)
    requires i < |order| && order[i] in theirs
    ensures (was + Only(theirs, order[..i]))[order[i] := theirs[order[i]]] == was + Only(theirs, order[..i + 1])
  {
    assert order[..i + 1] == order[..i] + [order[i]];
  }

  /** A map of the same size is taken in as a whole. */
  lemma SameSizeWhole(cells: Cells, size: nat, ok: bool, done: nat)
    requires Stopped(size, size, ok, done) && forall c :: c in cells ==> InGrid(c, size)
    ensures ok && Only(cells, GridOrder(size)[..done]) == cells
  {
    var order := GridOrder(size);
    forall k | 0 <= k < |order| ensures InGrid(order[k], size) {
      assert order[k] in order;
    }
    assert order[..|order|] == order;
  }

  /** Merging several maps one after the other. */
  function JoinedAll(cells: Cells, others: seq<Cells>): Cells {
    if others == [] then cells else JoinedAll(JoinedCells(cells, others[0]), others[1..])
  }

  lemma {:induction false} JoinedAllAppend(cells: Cells, others: seq<Cells>, next: Cells)
    ensures JoinedAll(cells, others + [next]) == JoinedCells(JoinedAll(cells, others), next)
    decreases |others|
  {
    hide JoinedCells;
    if others == [] {
      assert JoinedAll(cells, [next]) == JoinedAll(JoinedCells(cells, next), []);
    } else {
      assert (others + [next])[1..] == others[1..] + [next];
      JoinedAllAppend(JoinedCells(cells, others[0]), others[1..], next);
    }
  }

  ghost predicate LatestOfMaps(r: Key, start: Key, others: seq<Cells>, c: Coord) {
    && !KeyLess(r, start)
    && (forall i :: 0 <= i < |others| && c in others[i] ==> !KeyLess(r, KeyOf(others[i][c])))
    && (r == start || exists i :: 0 <= i < |others| && c in others[i] && r == KeyOf(others[i][c]))
  }

  /** Each cell of the merged map carries the latest key among the maps. */
  lemma {:induction false} JoinedAllIsLatest(cells: Cells, others: seq<Cells>, c: Coord)
    requires AllInUnit(cells) && forall i :: 0 <= i < |others| ==> AllInUnit(others[i])
    requires c in cells
    ensures c in JoinedAll(cells, others)
    ensures LatestOfMaps(KeyOf(JoinedAll(cells, others)[c]), KeyOf(cells[c]), others, c)
  {
    if others != [] {
      var next := JoinedCells(cells, others[0]);
      JoinedAllIsLatest(next, others[1..], c);
      assert forall i :: 1 <= i < |others| ==> others[i] == others[1..][i - 1];
      var r := KeyOf(JoinedAll(next, others[1..])[c]);
      if r != KeyOf(next[c]) {
        var i :| 0 <= i < |others[1..]| && c in others[1..][i] && r == KeyOf(others[1..][i][c]);
        assert others[i + 1] == others[1..][i];
      }
    }
  }

  /** The merged map does not depend on the order of the peers or on merging a peer twice. */
  lemma PeerOrderIrrelevant(cells: Cells, a: seq<Cells>, b: seq<Cells>, c: Coord)
    requires AllInUnit(cells) && c in cells
    requires forall i :: 0 <= i < |a| ==> AllInUnit(a[i])
    requires forall m :: m in a <==> m in b
    ensures c in JoinedAll(cells, a) && c in JoinedAll(cells, b)
    ensures KeyOf(JoinedAll(cells, a)[c]) == KeyOf(JoinedAll(cells, b)[c])
  {
    forall i | 0 <= i < |b| ensures AllInUnit(b[i]) {
      assert b[i] in a;
    }
    JoinedAllIsLatest(cells, a, c);
    JoinedAllIsLatest(cells, b, c);
    var r, s, start := KeyOf(JoinedAll(cells, a)[c]), KeyOf(JoinedAll(cells, b)[c]), KeyOf(cells[c]);
    if r != start {
      var i :| 0 <= i < |a| && c in a[i] && r == KeyOf(a[i][c]);
      assert a[i] in b;
    }
    if s != start {
      var i :| 0 <= i < |b| && c in b[i] && s == KeyOf(b[i][c]);
      assert b[i] in a;
    }
  }

  // ----- the map object -----

  class CertaintyMap {
    const size: nat
    const grid: array2<CellState>

    ghost predicate Valid()
      reads grid
    {
      && grid.Length0 == grid.Length1 == size
      && forall c :: InGrid(c, size) ==> InUnit(grid[c.y, c.x])
    }

    ghost function View(): (cells: Cells)
      requires Valid()
      reads grid
      ensures forall c :: c in cells <==> InGrid(c, size)
      ensures AllInUnit(cells)
    {
      map c | c in GridCells(size) :: grid[c.y, c.x]
    }

    constructor (size: nat, initialCertainty: real, decayRate: real, nowMs: int, bootstrap: DroneId)
      ensures Valid() && this.size == size && fresh(grid)
      ensures View() == map c | c in GridCells(size) :: CellState(Clamp(initialCertainty), nowMs, bootstrap, decayRate)
    {
      this.size := size;
      grid := new CellState[size, size]((_, _) => CellState(Clamp(initialCertainty), nowMs, bootstrap, decayRate));
    }

    /** Writes one cell; false stands for the error raised outside the grid. */
    method SetCertainty(c: Coord, certainty: real, author: DroneId, nowMs: int) returns (ok: bool)
      requires Valid()
      modifies grid
      ensures Valid() && ok == InGrid(c, size)
      ensures View() == if ok then old(View())[c := Written(old(View())[c], certainty, author, nowMs)] else old(View())
      ensures ok ==>
        && View()[c].updatedBy == author && View()[c].lastUpdatedMs == nowMs
        && View()[c].certainty == (if certainty > 1.0 then 1.0 else if certainty < 0.0 then 0.0 else certainty)
        && View()[c].decayRate == old(View())[c].decayRate
    {
      if !InGrid(c, size) {
        return false;
      }
      grid[c.y, c.x] := Written(grid[c.y, c.x], certainty, author, nowMs);
      return true;
    }

    method UpdateCell(c: Coord, increment: real, author: DroneId, nowMs: int) returns (ok: bool)
      requires Valid()
      modifies grid
      ensures Valid() && ok == InGrid(c, size)
      ensures View() == if ok
        then old(View())[c := Written(old(View())[c], old(View())[c].certainty + increment, author, nowMs)]
        else old(View())
      ensures ok && increment >= 0.0 ==>
        View()[c].certainty == (if old(View())[c].certainty + increment > 1.0 then 1.0
                                else old(View())[c].certainty + increment)
    {
      if !InGrid(c, size) {
        return false;
      }
      ok := SetCertainty(c, grid[c.y, c.x].certainty + increment, author, nowMs);
    }

    method DecayCells(seconds: real, nowMs: int, skip: set<Coord>)
      requires Valid()
      modifies grid
      ensures Valid()
      ensures View() == DecayedCells(old(View()), seconds, nowMs, skip)
    {
      hide Decayed;
      ghost var was := View();
      ghost var now := DecayedCells(was, seconds, nowMs, skip);
      for y := 0 to size
        invariant Valid()
        invariant forall c :: InGrid(c, size) ==> grid[c.y, c.x] == if c.y < y then now[c] else was[c]
      {
        for x := 0 to size
          invariant Valid()
          invariant forall c :: InGrid(c, size) ==>
            grid[c.y, c.x] == if c.y < y || (c.y == y && c.x < x) then now[c] else was[c]
        {
          var c := Coord(x, y);
          if c !in skip {
            DecayStays(grid[y, x], seconds, nowMs);
            grid[y, x] := Decayed(grid[y, x], seconds, nowMs);
          }
        }
      }
    }

    /** Every cell that is not skipped loses its share of certainty, and is stamped. */
    method DecayAll(seconds: real, nowMs: int, skip: set<Coord>)
      requires Valid()
      modifies grid
      ensures Valid()
      ensures View() == DecayedCells(old(View()), seconds, nowMs, skip)
      ensures forall c :: InGrid(c, size) && c in skip ==> grid[c.y, c.x] == old(grid[c.y, c.x])
      ensures forall c :: InGrid(c, size) && c !in skip && 0.0 <= old(grid[c.y, c.x]).decayRate * seconds <= 1.0 ==>
        var cell := old(grid[c.y, c.x]);
        grid[c.y, c.x]
            == CellState(cell.certainty * (1.0 - cell.decayRate * seconds), nowMs, cell.updatedBy, cell.decayRate)
    {
      hide DecayedCells;
      ghost var was := View();
      DecayCells(seconds, nowMs, skip);
      DecayInWords(was, seconds, nowMs, skip);
    }

    /** Takes a key over if it is later than the cell's own; false stands for the error raised outside the grid. */
    method MergeCell(c: Coord, certainty: real, ts: int, author: DroneId) returns (ok: bool)
      requires Valid()
      modifies grid
      ensures Valid() && ok == InGrid(c, size)
      ensures View() == if ok then old(View())[c := Merged(old(View())[c], certainty, ts, author)] else old(View())
    {
      if !InGrid(c, size) {
        return false;
      }
      ok := true;
      var current := grid[c.y, c.x];
      if ts > current.lastUpdatedMs || (ts == current.lastUpdatedMs && certainty > current.certainty) {
        ok := SetCertainty(c, certainty, author, ts);
      }
    }

    /** Joins another map into this one, cell by cell in row-major order. False stands for the error raised
        at a cell outside this map; the cells before it stay joined. */
    method MergeTimestampedFrom(other: CertaintyMap) returns (ok: bool, ghost done: nat)
      requires Valid() && other.Valid()
      requires other != this ==> other.grid != grid
      modifies grid
      ensures Valid() && Stopped(other.size, size, ok, done)
      ensures View() == JoinedCells(old(View()), Only(old(other.View()), GridOrder(other.size)[..done]))
    {
      hide Merged, JoinedCells, Only, GridOrder;
      ghost var was, theirs := View(), other.View();
      var order := GridOrder(other.size);
      GridOrderOnce(other.size);
      NothingJoined(was, theirs, order);
      var i := 0;
      while i < |order|
        invariant Valid() && other.Valid() && i <= |order|
        invariant forall k :: 0 <= k < i ==> InGrid(order[k], size)
        invariant View() == JoinedCells(was, Only(theirs, order[..i]))
        invariant forall k :: i <= k < |order| ==> order[k] in theirs && other.View()[order[k]] == theirs[order[k]]
      {
        var c := order[i];
        if !InGrid(c, size) {
          return false, i;
        }
        var cell := other.grid[c.y, c.x];
        ghost var before := View();
        ok := MergeCell(c, cell.certainty, cell.lastUpdatedMs, cell.updatedBy);
        NextJoined(was, theirs, before, order, i);
        i := i + 1;
      }
      return true, i;
    }

    method Take(c: Coord, cell: CellState)
      requires Valid() && InGrid(c, size) && InUnit(cell)
      modifies grid
      ensures Valid() && View() == old(View())[c := cell]
    {
      grid[c.y, c.x] := cell.(certainty := Clamp(cell.certainty));
    }

    /** Takes over another map's cells, in the same order and with the same error. */
    method ResetFrom(source: CertaintyMap) returns (ok: bool, ghost done: nat)
      requires Valid() && source.Valid()
      requires source != this ==> source.grid != grid
      modifies grid
      ensures Valid() && Stopped(source.size, size, ok, done)
      ensures View() == old(View()) + Only(old(source.View()), GridOrder(source.size)[..done])
    {
      hide Only, GridOrder, Distinct, InUnit;
      ghost var was, theirs := View(), source.View();
      var order := GridOrder(source.size);
      GridOrderOnce(source.size);
      NothingTaken(was, theirs, order);
      var i := 0;
      while i < |order|
        invariant Valid() && source.Valid() && i <= |order|
        invariant forall k :: 0 <= k < i ==> InGrid(order[k], size)
        invariant View() == was + Only(theirs, order[..i])
        invariant source.View() == theirs
      {
        var c := order[i];
        if !InGrid(c, size) {
          return false, i;
        }
        var cell := source.grid[c.y, c.x];
        Take(c, cell);
        PutBack(theirs, c);
        NextTaken(was, theirs, order, i);
        i := i + 1;
      }
      return true, i;
    }

    /** Merges received payloads in turn, stopping at the first one that lies outside the grid. */
    method MergeRowsTimestamped(payloads: seq<CellPayload>, author: DroneId) returns (done: nat)
      requires Valid()
      modifies grid
      ensures Valid() && done <= |payloads|
      ensures forall i :: 0 <= i < done ==> InGrid(payloads[i].cell, size)
      ensures done < |payloads| ==> !InGrid(payloads[done].cell, size)
      ensures View() == MergedCells(old(View()), payloads[..done], author)
    {
      ghost var was := View();
      done := 0;
      while done < |payloads|
        invariant Valid() && done <= |payloads|
        invariant forall i :: 0 <= i < done ==> InGrid(payloads[i].cell, size)
        invariant View() == MergedCells(was, payloads[..done], author)
      {
        var p := payloads[done];
        if !InGrid(p.cell, size) {
          return;
        }
        ghost var before := View();
        var current := grid[p.cell.y, p.cell.x];
        MergeIsJoin(current, p, author);
        grid[p.cell.y, p.cell.x] := Merged(current, p.certainty, p.lastUpdatedMs, author);
        MergedCellsNext(was, before, View(), payloads, done, author);
        done := done + 1;
      }
      assert payloads[..|payloads|] == payloads;
    }
  }

  /** A cell loses its share of certainty per second, and is stamped. */
  lemma LosesShare(cell: CellState, seconds: real, nowMs: int)
    requires InUnit(cell) && 0.0 <= cell.decayRate * seconds <= 1.0
    ensures Decayed(cell, seconds, nowMs)
            == CellState(cell.certainty * (1.0 - cell.decayRate * seconds), nowMs, cell.updatedBy, cell.decayRate)
  {
    var loss := cell.decayRate * seconds;
    ProductSign(cell.certainty, loss);
    ProductSign(cell.certainty, 1.0 - loss);
    Distributes(cell.certainty, 0.0, loss);
  }

  lemma DecayInWords(cells: Cells, seconds: real, nowMs: int, skip: set<Coord>)
    requires AllInUnit(cells)
    ensures var now := DecayedCells(cells, seconds, nowMs, skip);
      && now.Keys == cells.Keys
      && (forall c :: c in cells && c in skip ==> now[c] == cells[c])
      && (forall c :: c in cells && c !in skip && 0.0 <= cells[c].decayRate * seconds <= 1.0 ==>
            now[c] == CellState(cells[c].certainty * (1.0 - cells[c].decayRate * seconds), nowMs,
                                cells[c].updatedBy, cells[c].decayRate))
  {
    hide Decayed;
    forall c | c in cells && c !in skip && 0.0 <= cells[c].decayRate * seconds <= 1.0
      ensures Decayed(cells[c], seconds, nowMs)
              == CellState(cells[c].certainty * (1.0 - cells[c].decayRate * seconds), nowMs, cells[c].updatedBy,
                           cells[c].decayRate)
    {
      LosesShare(cells[c], seconds, nowMs);
    }
  }

  lemma ProductSign(x: real, y: real)
    requires x >= 0.0 && y >= 0.0
    ensures x * y >= 0.0
    ensures x > 0.0 && y > 0.0 ==> x * y > 0.0
  {}

  lemma Distributes(x: real, y: real, z: real)
    ensures (x - y) * z == x * z - y * z
    ensures x * (1.0 - z) == x - x * z
  {}

  lemma DecayStays(cell: CellState, seconds: real, nowMs: int)
    ensures InUnit(Decayed(cell, seconds, nowMs))
  {}

  lemma MergedCellsNext(was: Cells, before: Cells, after: Cells, payloads: seq<CellPayload>, n: nat, author: DroneId)
    requires n < |payloads| && before == MergedCells(was, payloads[..n], author)
    requires var p := payloads[n];
      p.cell in before && after == before[p.cell := Merged(before[p.cell], p.certainty, p.lastUpdatedMs, author)]
    ensures after == MergedCells(was, payloads[..n + 1], author)
  {
    hide Merged;
    var p := payloads[n];
    assert payloads[..n + 1] == payloads[..n] + [p];
    forall c | c in was ensures after[c] == MergedAll(was[c], payloads[..n + 1], author, c) {
      MergedAllAppend(was[c], payloads[..n], [p], author, c);
      var next := if p.cell == c then Merged(before[c], p.certainty, p.lastUpdatedMs, author) else before[c];
      assert MergedAll(before[c], [p], author, c) == MergedAll(next, [], author, c);
    }
  }
}
