/** The console's own auction: idle drones propose to their best free cell, the nearest claimant of a
    cell wins it, and the losers propose again. */
module Console {
  import opened Basics
  import opened Sorting
  import opened Auction

  datatype ConsoleStatus = Idling | Transit | Searching | Offline

  datatype ConsoleDrone = ConsoleDrone(id: DroneId, position: Coord, target: Option<Coord>, status: ConsoleStatus,
                                       stale: bool)

  /** One pass sees one picture of the grid: entropies, and the cells that have an owner. */
  datatype Board = Board(view: MapView, owned: set<Coord>)

  // ----- preferences -----

  predicate CandidateLe(view: MapView, from: Coord, a: Coord, b: Coord) {
    !Precedes(view, from, false, b, a)
  }

  /** The cells a drone may ask for, best first. */
  function BuildCandidates(board: Board, from: Coord, reserved: set<Coord>): seq<Coord> {
    Sort(Without(CellsOfRows(board.view.size, board.view.size), reserved + board.owned),
         (a, b) => CandidateLe(board.view, from, a, b))
  }

  ghost predicate Prefers(board: Board, from: Coord, a: Coord, b: Coord) {
    Precedes(board.view, from, false, a, b)
  }

  /** A list of cells in strict order of preference. */
  ghost predicate Ranking(board: Board, from: Coord, list: seq<Coord>) {
    forall i, j :: 0 <= i < j < |list| ==> Prefers(board, from, list[i], list[j])
  }

  lemma {:induction false} WithoutDistinct(cells: seq<Coord>, taken: set<Coord>)
    requires Distinct(cells)
    ensures Distinct(Without(cells, taken))
  {
    if cells != [] {
      WithoutDistinct(cells[1..], taken);
      var rest := Without(cells[1..], taken);
      forall k | 0 <= k < |rest| ensures rest[k] != cells[0] {
        assert rest[k] in rest;
        assert rest[k] in cells[1..];
      }
    }
  }

  lemma CandidateOrder(view: MapView, from: Coord)
    ensures TotalPreorder((a, b) => CandidateLe(view, from, a, b))
  {
    hide Precedes;
    forall a, b, c
      ensures CandidateLe(view, from, a, b) || CandidateLe(view, from, b, a)
      ensures CandidateLe(view, from, a, b) && CandidateLe(view, from, b, c) ==> CandidateLe(view, from, a, c)
    {
      PrecedesStrict(view, from, a, b);
      PrecedesStrict(view, from, b, c);
      PrecedesOrder(view, from, false, a, b, c);
      PrecedesOrder(view, from, false, c, b, a);
      PrecedesOrder(view, from, false, c, a, b);
      PrecedesOrder(view, from, false, b, c, a);
    }
  }

  lemma PrecedesStrict(view: MapView, from: Coord, a: Coord, b: Coord)
    ensures !(Precedes(view, from, false, a, b) && Precedes(view, from, false, b, a))
    ensures !Precedes(view, from, false, a, a)
  {
    hide DistSquared;
  }

  /** The candidates are exactly the free cells, in strict order of preference. */
  lemma CandidatesRanked(board: Board, from: Coord, reserved: set<Coord>)
    ensures var list := BuildCandidates(board, from, reserved);
      && Ranking(board, from, list) && Distinct(list)
      && forall c :: c in list <==> InGrid(c, board.view.size) && c !in reserved + board.owned
    ensures var list, entropy := BuildCandidates(board, from, reserved), board.view.entropy;
      forall i, j :: 0 <= i < j < |list| ==>
        || entropy(list[i]) > entropy(list[j])
        || (entropy(list[i]) == entropy(list[j]) && DistSquared(from, list[i]) < DistSquared(from, list[j]))
        || (entropy(list[i]) == entropy(list[j]) && DistSquared(from, list[i]) == DistSquared(from, list[j])
            && (list[i].y < list[j].y || (list[i].y == list[j].y && list[i].x < list[j].x)))
  {
    CandidatesInOrder(board, from, reserved);
    var list := BuildCandidates(board, from, reserved);
    hide BuildCandidates, DistSquared;
    forall i, j | 0 <= i < j < |list| ensures Precedes(board.view, from, false, list[i], list[j]) {
      assert Prefers(board, from, list[i], list[j]);
    }
  }

  lemma CandidatesInOrder(board: Board, from: Coord, reserved: set<Coord>)
    ensures var list := BuildCandidates(board, from, reserved);
      && Ranking(board, from, list) && Distinct(list)
      && forall c :: c in list <==> InGrid(c, board.view.size) && c !in reserved + board.owned
  {
    hide Precedes, Sort, Without, CellsOfRows;
    var size := board.view.size;
    var cells := Without(CellsOfRows(size, size), reserved + board.owned);
    RowsDistinct(size, size);
    WithoutDistinct(CellsOfRows(size, size), reserved + board.owned);
    var le := (a, b) => CandidateLe(board.view, from, a, b);
    CandidateOrder(board.view, from);
    SortSorts(cells, le);
    var list := Sort(cells, le);
    SameElements(cells, list);
    DistinctLength(cells);
    assert Elements(list) == Elements(cells);
    RepeatShrinks(list);
    forall i, j | 0 <= i < j < |list| ensures Prefers(board, from, list[i], list[j]) {
      assert le(list[i], list[j]);
      PrecedesOrder(board.view, from, false, list[i], list[j], list[j]);
    }
  }

  // ----- one round of proposals -----

  /** A drone still waiting, with the candidates it has not asked for yet. */
  datatype Entry = Entry(index: nat, candidates: seq<Coord>)

  /** All drones that ask for one cell in a round. */
  datatype Group = Group(cell: Coord, entries: seq<Entry>)

  /** Everything a waiting drone skipped is reserved; what is left is the rest of its ranking. */
  ghost predicate Waiting(e: Entry, prefs: seq<seq<Coord>>, reserved: set<Coord>) {
    && e.index < |prefs| && |e.candidates| <= |prefs[e.index]|
    && var n := |prefs[e.index]| - |e.candidates|;
       e.candidates == prefs[e.index][n..] && forall m :: 0 <= m < n ==> prefs[e.index][m] in reserved
  }

  /** A drone that asks for a cell: the cell is its best one that is not reserved. */
  ghost predicate Asking(e: Entry, cell: Coord, prefs: seq<seq<Coord>>, reserved: set<Coord>) {
    && e.index < |prefs| && |e.candidates| < |prefs[e.index]|
    && cell !in reserved
    && var n := |prefs[e.index]| - |e.candidates| - 1;
       prefs[e.index][n] == cell && e.candidates == prefs[e.index][n + 1..]
       && forall m :: 0 <= m < n ==> prefs[e.index][m] in reserved
  }

  /** Skips reserved cells and takes the next candidate off the list, if there is one. */
  method NextCandidate(e: Entry, ghost prefs: seq<seq<Coord>>, reserved: set<Coord>)
      returns (rest: Entry, candidate: Option<Coord>)
    requires Waiting(e, prefs, reserved)
    ensures rest.index == e.index
    ensures candidate.Some? ==> Asking(rest, candidate.value, prefs, reserved)
    ensures candidate.None? ==> forall c :: c in prefs[e.index] ==> c in reserved
  {
    rest := e;
    while rest.candidates != [] && rest.candidates[0] in reserved
      invariant rest.index == e.index && Waiting(rest, prefs, reserved)
      decreases |rest.candidates|
    {
      rest := Entry(rest.index, rest.candidates[1..]);
    }
    if rest.candidates == [] {
      return rest, None;
    }
    candidate := Some(rest.candidates[0]);
    rest := Entry(rest.index, rest.candidates[1..]);
  }

  ghost function EntryIndices(entries: seq<Entry>): multiset<nat> {
    if entries == [] then multiset{}
    else EntryIndices(entries[..|entries| - 1]) + multiset{entries[|entries| - 1].index}
  }

  ghost function GroupIndices(groups: seq<Group>): multiset<nat> {
    if groups == [] then multiset{}
    else GroupIndices(groups[..|groups| - 1]) + EntryIndices(groups[|groups| - 1].entries)
  }

  /** The proposals of a round: different cells, none reserved, each asked for by somebody. */
  ghost predicate Proposed(groups: seq<Group>, prefs: seq<seq<Coord>>, reserved: set<Coord>) {
    && (forall g, h :: 0 <= g < h < |groups| ==> groups[g].cell != groups[h].cell)
    && (forall g :: 0 <= g < |groups| ==> groups[g].entries != [])
    && (forall g, k :: 0 <= g < |groups| && 0 <= k < |groups[g].entries| ==>
          Asking(groups[g].entries[k], groups[g].cell, prefs, reserved))
  }

  lemma EntryAppend(entries: seq<Entry>, e: Entry)
    ensures EntryIndices(entries + [e]) == EntryIndices(entries) + multiset{e.index}
    ensures |EntryIndices(entries + [e])| == |EntryIndices(entries)| + 1
  {
    assert (entries + [e])[..|entries|] == entries;
  }

  lemma {:induction false} GroupUpdate(groups: seq<Group>, g: nat, e: Entry)
    requires g < |groups|
    ensures GroupIndices(groups[g := Group(groups[g].cell, groups[g].entries + [e])])
        == GroupIndices(groups) + multiset{e.index}
    decreases |groups|
  {
    var updated := groups[g := Group(groups[g].cell, groups[g].entries + [e])];
    var last := |groups| - 1;
    if g == last {
      assert updated[..last] == groups[..last];
      EntryAppend(groups[g].entries, e);
    } else {
      assert updated[..last] == groups[..last][g := Group(groups[g].cell, groups[g].entries + [e])];
      GroupUpdate(groups[..last], g, e);
    }
  }

  lemma GroupAppend(groups: seq<Group>, g: Group)
    ensures GroupIndices(groups + [g]) == GroupIndices(groups) + EntryIndices(g.entries)
  {
    assert (groups + [g])[..|groups|] == groups;
  }

  lemma ProposedUpdate(groups: seq<Group>, g: nat, e: Entry, prefs: seq<seq<Coord>>, reserved: set<Coord>)
    requires Proposed(groups, prefs, reserved) && g < |groups| && Asking(e, groups[g].cell, prefs, reserved)
    ensures Proposed(groups[g := Group(groups[g].cell, groups[g].entries + [e])], prefs, reserved)
  {
    hide Asking;
    var r := groups[g := Group(groups[g].cell, groups[g].entries + [e])];
    assert forall h :: 0 <= h < |r| ==> r[h].cell == groups[h].cell;
    forall h, k | 0 <= h < |r| && 0 <= k < |r[h].entries| ensures Asking(r[h].entries[k], r[h].cell, prefs, reserved) {
      if h != g || k < |groups[g].entries| {
        assert Asking(groups[h].entries[k], groups[h].cell, prefs, reserved);
      }
    }
  }

  lemma ProposedAppend(groups: seq<Group>, cell: Coord, e: Entry, prefs: seq<seq<Coord>>, reserved: set<Coord>)
    requires Proposed(groups, prefs, reserved) && Asking(e, cell, prefs, reserved)
    requires forall h :: 0 <= h < |groups| ==> groups[h].cell != cell
    ensures Proposed(groups + [Group(cell, [e])], prefs, reserved)
    ensures EntryIndices([e]) == multiset{e.index}
  {
    hide Asking;
    assert [] + [e] == [e];
    EntryAppend([], e);
    var r := groups + [Group(cell, [e])];
    forall h, k | 0 <= h < |r| && 0 <= k < |r[h].entries| ensures Asking(r[h].entries[k], r[h].cell, prefs, reserved) {
      if h < |groups| {
        assert Asking(groups[h].entries[k], groups[h].cell, prefs, reserved);
      }
    }
  }

  /** Adds a proposal to its cell's group, or opens a new group at the end. */
  method AddProposal(groups: seq<Group>, cell: Coord, e: Entry, ghost prefs: seq<seq<Coord>>,
                     ghost reserved: set<Coord>)
      returns (r: seq<Group>)
    requires Proposed(groups, prefs, reserved) && Asking(e, cell, prefs, reserved)
    ensures Proposed(r, prefs, reserved)
    ensures GroupIndices(r) == GroupIndices(groups) + multiset{e.index}
    ensures r != []
  {
    hide Asking, Proposed, GroupIndices, EntryIndices;
    var g := 0;
    while g < |groups| && groups[g].cell != cell
      invariant 0 <= g <= |groups| && forall h :: 0 <= h < g ==> groups[h].cell != cell
    {
      g := g + 1;
    }
    if g < |groups| {
      GroupUpdate(groups, g, e);
      ProposedUpdate(groups, g, e, prefs, reserved);
      r := groups[g := Group(groups[g].cell, groups[g].entries + [e])];
    } else {
      GroupAppend(groups, Group(cell, [e]));
      ProposedAppend(groups, cell, e, prefs, reserved);
      r := groups + [Group(cell, [e])];
    }
  }

  /** Every waiting drone proposes; those with nothing left to ask for drop out. */
  method Propose(pending: seq<Entry>, ghost prefs: seq<seq<Coord>>, reserved: set<Coord>)
      returns (groups: seq<Group>, dropped: seq<nat>)
    requires forall k :: 0 <= k < |pending| ==> Waiting(pending[k], prefs, reserved)
    ensures Proposed(groups, prefs, reserved)
    ensures GroupIndices(groups) + multiset(dropped) == EntryIndices(pending)
    ensures forall k :: 0 <= k < |dropped| ==>
      dropped[k] < |prefs| && forall c :: c in prefs[dropped[k]] ==> c in reserved
    ensures pending != [] ==> groups != [] || dropped != []
  {
    hide Waiting, Asking, Proposed, GroupIndices, EntryIndices;
    groups, dropped := [], [];
    NothingProposed(prefs, reserved);
    for k := 0 to |pending|
      invariant Proposed(groups, prefs, reserved)
      invariant GroupIndices(groups) + multiset(dropped) == EntryIndices(pending[..k])
      invariant forall i :: 0 <= i < |dropped| ==>
        dropped[i] < |prefs| && forall c :: c in prefs[dropped[i]] ==> c in reserved
      invariant k > 0 ==> groups != [] || dropped != []
    {
      WaitingIndex(pending[k], prefs, reserved);
      var rest, candidate := NextCandidate(pending[k], prefs, reserved);
      assert pending[..k + 1] == pending[..k] + [pending[k]];
      assert multiset(dropped + [pending[k].index]) == multiset(dropped) + multiset{pending[k].index};
      EntryAppend(pending[..k], pending[k]);
      if candidate.None? {
        dropped := dropped + [pending[k].index];
      } else {
        groups := AddProposal(groups, candidate.value, rest, prefs, reserved);
      }
    }
    assert pending[..|pending|] == pending;
  }

  lemma NothingProposed(prefs: seq<seq<Coord>>, reserved: set<Coord>)
    ensures Proposed([], prefs, reserved)
    ensures GroupIndices([]) == multiset{} && EntryIndices([]) == multiset{}
  {}

  lemma WaitingIndex(e: Entry, prefs: seq<seq<Coord>>, reserved: set<Coord>)
    requires Waiting(e, prefs, reserved)
    ensures e.index < |prefs|
  {}

  // ----- settling a round -----

  datatype Grant = Grant(index: nat, cell: Coord)

  /** An auction between several claimants of one cell. */
  datatype Contest = Contest(cell: Coord, winner: nat, losers: seq<nat>)

  ghost function GrantedCells(grants: seq<Grant>): set<Coord> {
    set k | 0 <= k < |grants| :: grants[k].cell
  }

  ghost function GrantIndices(grants: seq<Grant>): multiset<nat> {
    if grants == [] then multiset{} else GrantIndices(grants[..|grants| - 1]) + multiset{grants[|grants| - 1].index}
  }

  /** The cell is the first of the ranking that is not reserved. */
  ghost predicate BestFor(pref: seq<Coord>, cell: Coord, reserved: set<Coord>) {
    exists n :: 0 <= n < |pref| && pref[n] == cell && cell !in reserved
                && forall m :: 0 <= m < n ==> pref[m] in reserved
  }

  /** A serial dictatorship: one after the other, each drone takes its best cell of those left. */
  ghost predicate Serial(grants: seq<Grant>, prefs: seq<seq<Coord>>, reserved: set<Coord>) {
    grants == [] ||
    (var front, last := grants[..|grants| - 1], grants[|grants| - 1];
     && Serial(front, prefs, reserved)
     && last.index < |prefs| && BestFor(prefs[last.index], last.cell, reserved + GrantedCells(front)))
  }

  lemma GrantAppend(grants: seq<Grant>, g: Grant)
    ensures GrantedCells(grants + [g]) == GrantedCells(grants) + {g.cell}
    ensures GrantIndices(grants + [g]) == GrantIndices(grants) + multiset{g.index}
  {
    assert (grants + [g])[..|grants|] == grants;
    assert forall k :: 0 <= k < |grants| ==> (grants + [g])[k] == grants[k];
    assert (grants + [g])[|grants|] == g;
  }

  lemma SerialAppend(grants: seq<Grant>, g: Grant, prefs: seq<seq<Coord>>, reserved: set<Coord>)
    requires Serial(grants, prefs, reserved) && g.index < |prefs|
    requires BestFor(prefs[g.index], g.cell, reserved + GrantedCells(grants))
    ensures Serial(grants + [g], prefs, reserved)
  {
    assert (grants + [g])[..|grants|] == grants;
  }

  function PositionOf(drones: seq<ConsoleDrone>, i: nat): Coord {
    if i < |drones| then drones[i].position else Coord(0, 0)
  }

  function IdOf(drones: seq<ConsoleDrone>, i: nat): DroneId {
    if i < |drones| then drones[i].id else 0
  }

  /** Nearer claimants first, then the smaller id. */
  predicate ClaimantLe(drones: seq<ConsoleDrone>, cell: Coord, a: nat, b: nat) {
    var da, db := DistSquared(PositionOf(drones, a), cell), DistSquared(PositionOf(drones, b), cell);
    if da != db then da < db else IdOf(drones, a) <= IdOf(drones, b)
  }

  lemma NearerClaimant(drones: seq<ConsoleDrone>, cell: Coord, a: nat, b: nat)
    requires a < |drones| && b < |drones|
    ensures ClaimantLe(drones, cell, a, b) <==>
      || DistSquared(drones[a].position, cell) < DistSquared(drones[b].position, cell)
      || (DistSquared(drones[a].position, cell) == DistSquared(drones[b].position, cell)
          && drones[a].id <= drones[b].id)
  {
    hide DistSquared;
  }

  lemma ClaimantOrder(drones: seq<ConsoleDrone>, cell: Coord)
    ensures TotalPreorder((a: Entry, b: Entry) => ClaimantLe(drones, cell, a.index, b.index))
  {
    hide DistSquared;
  }

  /** The winner of every contest is at least as near as each loser, with the smaller id on a tie. */
  ghost predicate Fair(contests: seq<Contest>, drones: seq<ConsoleDrone>) {
    forall k, m :: 0 <= k < |contests| && 0 <= m < |contests[k].losers| ==>
      ClaimantLe(drones, contests[k].cell, contests[k].winner, contests[k].losers[m])
  }

  /** The winner of a contest is nearer to its cell than each loser, or as near and of a smaller id. */
  lemma FairInWords(contests: seq<Contest>, drones: seq<ConsoleDrone>, k: nat, m: nat)
    requires Fair(contests, drones) && k < |contests| && m < |contests[k].losers|
    requires contests[k].winner < |drones| && contests[k].losers[m] < |drones|
    ensures var cell, winner, loser := contests[k].cell, drones[contests[k].winner], drones[contests[k].losers[m]];
      || DistSquared(winner.position, cell) < DistSquared(loser.position, cell)
      || (DistSquared(winner.position, cell) == DistSquared(loser.position, cell) && winner.id <= loser.id)
  {
    hide DistSquared, ClaimantLe;
    NearerClaimant(drones, contests[k].cell, contests[k].winner, contests[k].losers[m]);
  }

  /** A contest between all claimants of a cell was held and won by the drone that was granted it. */
  ghost predicate Ruled(contests: seq<Contest>, group: Group, g: Grant) {
    && g.cell == group.cell && g.index in EntryIndices(group.entries)
    && (|group.entries| > 1 ==>
          exists c :: c in contests && c.cell == group.cell && c.winner == g.index
                      && multiset(c.losers) + multiset{c.winner} == EntryIndices(group.entries))
  }

  lemma RuledMore(contests: seq<Contest>, more: seq<Contest>, group: Group, g: Grant)
    requires Ruled(contests, group, g)
    ensures Ruled(contests + more, group, g)
  {
    if |group.entries| > 1 {
      var c :| c in contests && c.cell == group.cell && c.winner == g.index
               && multiset(c.losers) + multiset{c.winner} == EntryIndices(group.entries);
      assert c in contests + more;
    }
  }

  lemma {:induction false} NamesOf(losers: seq<Entry>, names: seq<nat>)
    requires |names| == |losers| && forall k :: 0 <= k < |names| ==> names[k] == losers[k].index
    ensures multiset(names) == EntryIndices(losers)
    decreases |losers|
  {
    if losers != [] {
      var n := |losers| - 1;
      NamesOf(losers[..n], names[..n]);
      assert names == names[..n] + [names[n]];
    }
  }

  /** Picks the winner of a group; the others keep what is left of their lists. */
  method Judge(group: Group, drones: seq<ConsoleDrone>, ghost prefs: seq<seq<Coord>>, ghost reserved: set<Coord>)
      returns (winner: Entry, losers: seq<Entry>)
    requires group.entries != []
    requires forall k :: 0 <= k < |group.entries| ==> Asking(group.entries[k], group.cell, prefs, reserved)
    ensures multiset{winner.index} + EntryIndices(losers) == EntryIndices(group.entries)
    ensures Asking(winner, group.cell, prefs, reserved)
    ensures forall k :: 0 <= k < |losers| ==> Asking(losers[k], group.cell, prefs, reserved)
    ensures forall k :: 0 <= k < |losers| ==> ClaimantLe(drones, group.cell, winner.index, losers[k].index)
  {
    hide Asking, Sort, EntryIndices, ClaimantLe;
    var le := (a: Entry, b: Entry) => ClaimantLe(drones, group.cell, a.index, b.index);
    ClaimantOrder(drones, group.cell);
    SortSorts(group.entries, le);
    var sorted := Sort(group.entries, le);
    SameElements(group.entries, sorted);
    SameIndices(group.entries, sorted);
    winner, losers := sorted[0], sorted[1..];
    assert sorted == [winner] + losers;
    FirstAndRest(winner, losers);
    forall k | 0 <= k < |losers|
      ensures Asking(losers[k], group.cell, prefs, reserved)
      ensures ClaimantLe(drones, group.cell, winner.index, losers[k].index)
    {
      assert losers[k] == sorted[k + 1] && losers[k] in sorted;
      assert le(sorted[0], sorted[k + 1]);
    }
    assert winner in sorted;
  }

  lemma {:induction false} IndexCount(entries: seq<Entry>, i: nat)
    ensures EntryIndices(entries)[i] == |EntriesAt(entries, i)|
    ensures |EntryIndices(entries)| == |entries|
    decreases |entries|
  {
    if entries != [] {
      IndexCount(entries[..|entries| - 1], i);
    }
  }

  ghost function EntriesAt(entries: seq<Entry>, i: nat): multiset<Entry> {
    if entries == [] then multiset{}
    else EntriesAt(entries[..|entries| - 1], i)
         + if entries[|entries| - 1].index == i then multiset{entries[|entries| - 1]} else multiset{}
  }

  lemma {:induction false} EntriesAtCount(entries: seq<Entry>, i: nat, e: Entry)
    ensures EntriesAt(entries, i)[e] == if e.index == i then multiset(entries)[e] else 0
    decreases |entries|
  {
    if entries != [] {
      EntriesAtCount(entries[..|entries| - 1], i, e);
      assert entries == entries[..|entries| - 1] + [entries[|entries| - 1]];
    }
  }

  lemma SameIndices(a: seq<Entry>, b: seq<Entry>)
    requires multiset(a) == multiset(b)
    ensures EntryIndices(a) == EntryIndices(b)
  {
    forall i: nat ensures EntryIndices(a)[i] == EntryIndices(b)[i] {
      IndexCount(a, i);
      IndexCount(b, i);
      forall e ensures EntriesAt(a, i)[e] == EntriesAt(b, i)[e] {
        EntriesAtCount(a, i, e);
        EntriesAtCount(b, i, e);
      }
      assert EntriesAt(a, i) == EntriesAt(b, i);
    }
  }

  lemma {:induction false} EntriesConcat(a: seq<Entry>, b: seq<Entry>)
    ensures EntryIndices(a + b) == EntryIndices(a) + EntryIndices(b)
    decreases |b|
  {
    if b == [] {
      assert a + b == a;
    } else {
      assert (a + b)[..|a + b| - 1] == a + b[..|b| - 1];
      EntriesConcat(a, b[..|b| - 1]);
    }
  }

  lemma FirstAndRest(e: Entry, rest: seq<Entry>)
    ensures EntryIndices([e] + rest) == multiset{e.index} + EntryIndices(rest)
  {
    EntriesConcat([e], rest);
    assert [] + [e] == [e];
    EntryAppend([], e);
  }

  lemma AskingIsBest(e: Entry, cell: Coord, prefs: seq<seq<Coord>>, start: set<Coord>, now: set<Coord>)
    requires Asking(e, cell, prefs, start) && start <= now && cell !in now
    ensures e.index < |prefs| && BestFor(prefs[e.index], cell, now)
  {}

  lemma LoserWaits(e: Entry, cell: Coord, prefs: seq<seq<Coord>>, start: set<Coord>, now: set<Coord>)
    requires Asking(e, cell, prefs, start) && start <= now && cell in now
    ensures Waiting(e, prefs, now)
  {}

  lemma StillWaiting(e: Entry, prefs: seq<seq<Coord>>, start: set<Coord>, now: set<Coord>)
    requires Waiting(e, prefs, start) && start <= now
    ensures Waiting(e, prefs, now)
  {}

  /** What is known after some groups of a round are settled. */
  ghost predicate Settling(grants: seq<Grant>, next: seq<Entry>, prefs: seq<seq<Coord>>, reserved0: set<Coord>,
                           start: set<Coord>, reserved: set<Coord>)
  {
    && Serial(grants, prefs, reserved0) && reserved == reserved0 + GrantedCells(grants) && start <= reserved
    && forall k :: 0 <= k < |next| ==> Waiting(next[k], prefs, reserved)
  }

  lemma SettleOne(grants: seq<Grant>, next: seq<Entry>, prefs: seq<seq<Coord>>, reserved0: set<Coord>,
                  start: set<Coord>, reserved: set<Coord>, cell: Coord, winner: Entry, losers: seq<Entry>)
    requires Settling(grants, next, prefs, reserved0, start, reserved) && cell !in reserved
    requires Asking(winner, cell, prefs, start)
    requires forall k :: 0 <= k < |losers| ==> Asking(losers[k], cell, prefs, start)
    ensures Settling(grants + [Grant(winner.index, cell)], next + losers, prefs, reserved0, start, reserved + {cell})
  {
    hide Waiting, Asking, Serial, GrantedCells, BestFor;
    AskingIsBest(winner, cell, prefs, start, reserved);
    SerialAppend(grants, Grant(winner.index, cell), prefs, reserved0);
    GrantAppend(grants, Grant(winner.index, cell));
    var all := next + losers;
    forall k | 0 <= k < |all| ensures Waiting(all[k], prefs, reserved + {cell}) {
      if k < |next| {
        StillWaiting(next[k], prefs, reserved, reserved + {cell});
      } else {
        LoserWaits(losers[k - |next|], cell, prefs, start, reserved + {cell});
      }
    }
  }

  lemma Regroup(a: multiset<nat>, b: multiset<nat>, sum: multiset<nat>, c: multiset<nat>, d: multiset<nat>,
                e: multiset<nat>)
    requires a + b == sum && c + d == e
    ensures (a + c) + (b + d) == sum + e
  {
    forall x ensures ((a + c) + (b + d))[x] == (sum + e)[x] {
      assert sum[x] == a[x] + b[x] && e[x] == c[x] + d[x];
    }
  }

  lemma Carry(grants: multiset<nat>, groups: multiset<nat>, idled: multiset<nat>, dropped: multiset<nat>,
              pending: multiset<nat>, grants': multiset<nat>, next: multiset<nat>, all: multiset<nat>)
    requires grants + idled + pending == all && groups + dropped == pending && grants' + next == grants + groups
    ensures grants' + (idled + dropped) + next == all
  {
    forall x ensures (grants' + (idled + dropped) + next)[x] == all[x] {
      assert all[x] == grants[x] + idled[x] + pending[x] && pending[x] == groups[x] + dropped[x];
      assert (grants' + next)[x] == (grants + groups)[x];
    }
  }

  lemma FairAppend(contests: seq<Contest>, c: Contest, drones: seq<ConsoleDrone>)
    requires Fair(contests, drones)
    requires forall m :: 0 <= m < |c.losers| ==> ClaimantLe(drones, c.cell, c.winner, c.losers[m])
    ensures Fair(contests + [c], drones)
  {
    hide ClaimantLe;
    var all := contests + [c];
    forall k, m | 0 <= k < |all| && 0 <= m < |all[k].losers|
      ensures ClaimantLe(drones, all[k].cell, all[k].winner, all[k].losers[m])
    {
      if k < |contests| {
        assert all[k] == contests[k];
      }
    }
  }

  lemma ProposedCells(groups: seq<Group>, prefs: seq<seq<Coord>>, start: set<Coord>)
    requires Proposed(groups, prefs, start)
    ensures forall h :: 0 <= h < |groups| ==> groups[h].cell !in start && groups[h].entries != []
    ensures forall g, h :: 0 <= g < h < |groups| ==> groups[g].cell != groups[h].cell
    ensures forall g, k :: 0 <= g < |groups| && 0 <= k < |groups[g].entries| ==>
      Asking(groups[g].entries[k], groups[g].cell, prefs, start)
  {
    forall h | 0 <= h < |groups| ensures groups[h].cell !in start && groups[h].entries != [] {
      assert Asking(groups[h].entries[0], groups[h].cell, prefs, start);
    }
  }

  /** Grants one cell to the best of its claimants. */
  method SettleGroup(group: Group, drones: seq<ConsoleDrone>, ghost prefs: seq<seq<Coord>>, ghost reserved0: set<Coord>,
                     ghost start: set<Coord>, reserved: set<Coord>, grants0: seq<Grant>, contests0: seq<Contest>,
                     next0: seq<Entry>)
      returns (grants: seq<Grant>, contests: seq<Contest>, next: seq<Entry>)
    requires group.entries != [] && group.cell !in reserved
    requires forall k :: 0 <= k < |group.entries| ==> Asking(group.entries[k], group.cell, prefs, start)
    requires Settling(grants0, next0, prefs, reserved0, start, reserved) && Fair(contests0, drones)
    ensures Settling(grants, next, prefs, reserved0, start, reserved + {group.cell}) && Fair(contests, drones)
    ensures GrantIndices(grants) + EntryIndices(next)
            == GrantIndices(grants0) + EntryIndices(next0) + EntryIndices(group.entries)
    ensures |next| + 1 == |next0| + |EntryIndices(group.entries)|
    ensures |grants| == |grants0| + 1 && grants[..|grants0|] == grants0
    ensures |contests| >= |contests0| && contests[..|contests0|] == contests0
    ensures |group.entries| == 1 ==> contests == contests0
    ensures Ruled(contests, group, grants[|grants0|])
  {
    hide Waiting, Asking, Settling, EntryIndices, GrantIndices, ClaimantLe, Fair;
    var winner, losers := Judge(group, drones, prefs, start);
    SettleOne(grants0, next0, prefs, reserved0, start, reserved, group.cell, winner, losers);
    GrantAppend(grants0, Grant(winner.index, group.cell));
    EntriesConcat(next0, losers);
    IndexCount(losers, 0);
    Regroup(GrantIndices(grants0), EntryIndices(next0), GrantIndices(grants0) + EntryIndices(next0),
            multiset{winner.index}, EntryIndices(losers), EntryIndices(group.entries));
    grants := grants0 + [Grant(winner.index, group.cell)];
    next := next0 + losers;
    contests := contests0;
    if losers != [] {
      var names := seq(|losers|, k requires 0 <= k < |losers| => losers[k].index);
      FairAppend(contests0, Contest(group.cell, winner.index, names), drones);
      contests := contests0 + [Contest(group.cell, winner.index, names)];
      NamesOf(losers, names);
      assert contests[|contests0|] == Contest(group.cell, winner.index, names);
    }
    OneEntry(group.entries, losers);
  }

  lemma OneEntry(entries: seq<Entry>, losers: seq<Entry>)
    requires |EntryIndices(losers)| + 1 == |EntryIndices(entries)|
    ensures |losers| + 1 == |entries|
  {
    IndexCount(entries, 0);
    IndexCount(losers, 0);
  }

  /** Grants every cell asked for in a round to one claimant, and lines the others up for the next round. */
  method Settle(groups: seq<Group>, drones: seq<ConsoleDrone>, ghost prefs: seq<seq<Coord>>,
                ghost reserved0: set<Coord>, start: set<Coord>, grants0: seq<Grant>, contests0: seq<Contest>)
      returns (grants: seq<Grant>, contests: seq<Contest>, reserved: set<Coord>, next: seq<Entry>)
    requires Proposed(groups, prefs, start) && Settling(grants0, [], prefs, reserved0, start, start)
    requires Fair(contests0, drones)
    ensures Settling(grants, next, prefs, reserved0, start, reserved) && Fair(contests, drones)
    ensures GrantIndices(grants) + EntryIndices(next) == GrantIndices(grants0) + GroupIndices(groups)
    ensures |next| + |groups| == |GroupIndices(groups)|
    ensures |grants| == |grants0| + |groups| && grants[..|grants0|] == grants0
    ensures forall g :: 0 <= g < |groups| ==> Ruled(contests, groups[g], grants[|grants0| + g])
  {
    hide Waiting, Asking, Settling, GroupIndices, EntryIndices, GrantIndices, Fair, Proposed, Ruled;
    grants, contests, reserved, next := grants0, contests0, start, [];
    ProposedCells(groups, prefs, start);
    NothingProposed(prefs, start);
    assert groups[..0] == [];
    for g := 0 to |groups|
      invariant Settling(grants, next, prefs, reserved0, start, reserved) && Fair(contests, drones)
      invariant GrantIndices(grants) + EntryIndices(next) == GrantIndices(grants0) + GroupIndices(groups[..g])
      invariant |next| + g == |GroupIndices(groups[..g])|
      invariant forall h :: g <= h < |groups| ==> groups[h].cell !in reserved
      invariant |grants| == |grants0| + g && grants[..|grants0|] == grants0
      invariant forall h :: 0 <= h < g ==> Ruled(contests, groups[h], grants[|grants0| + h])
    {
      assert groups[..g + 1] == groups[..g] + [groups[g]];
      GroupAppend(groups[..g], groups[g]);
      ghost var before, held := contests, grants;
      grants, contests, next := SettleGroup(groups[g], drones, prefs, reserved0, start, reserved, grants, contests,
                                            next);
      reserved := reserved + {groups[g].cell};
      forall h | 0 <= h < g ensures Ruled(contests, groups[h], grants[|grants0| + h]) {
        assert grants[|grants0| + h] == grants[..|held|][|grants0| + h] == held[|grants0| + h];
        RuledMore(before, contests[|before|..], groups[h], held[|grants0| + h]);
        assert before + contests[|before|..] == contests;
      }
      assert grants[..|grants0|] == grants[..|held|][..|grants0|];
    }
    assert groups[..|groups|] == groups;
  }

  // ----- a whole pass -----

  /** The cells held by drones on the way or searching. */
  function HeldCells(drones: seq<ConsoleDrone>): set<Coord> {
    set i | 0 <= i < |drones| && !drones[i].stale && drones[i].target.Some?
            && (drones[i].status == Transit || drones[i].status == Searching) :: drones[i].target.value
  }

  predicate Pending(d: ConsoleDrone) {
    !d.stale && d.status == Idling
  }

  function Rankings(board: Board, drones: seq<ConsoleDrone>, reserved: set<Coord>): seq<seq<Coord>> {
    seq(|drones|, i requires 0 <= i < |drones| => BuildCandidates(board, drones[i].position, reserved))
  }

  /** Everything the pass promises about who gets what. */
  ghost predicate Settled(grants: seq<Grant>, idled: seq<nat>, prefs: seq<seq<Coord>>, reserved0: set<Coord>) {
    && Serial(grants, prefs, reserved0)
    && forall k :: 0 <= k < |idled| ==>
         idled[k] < |prefs| && forall c :: c in prefs[idled[k]] ==> c in reserved0 + GrantedCells(grants)
  }

  /** One pass over the idle drones. Every one of them either is granted a cell or is left without a
      target because no free cell remains; the grants are those of a serial dictatorship. */
  method ReassignIdleDrones(board: Board, drones: seq<ConsoleDrone>)
      returns (grants: seq<Grant>, contests: seq<Contest>, idled: seq<nat>, ghost waiting: seq<Entry>)
    ensures Settled(grants, idled, Rankings(board, drones, HeldCells(drones)), HeldCells(drones))
    ensures GrantIndices(grants) + multiset(idled) == EntryIndices(waiting)
    ensures forall i: nat ::
      EntryIndices(waiting)[i] == if i < |drones| && !drones[i].stale && drones[i].status == Idling then 1 else 0
    ensures Fair(contests, drones)
  {
    hide Rankings, HeldCells, Settling, Waiting, EntryIndices, GrantIndices, GroupIndices, GrantedCells, Serial,
         ClaimantLe, Fair;
    var reserved0 := HeldCells(drones);
    NoContests(drones);
    ghost var prefs := Rankings(board, drones, reserved0);
    var pending := FirstEntries(board, drones, reserved0);
    waiting := pending;
    grants, contests, idled := [], [], [];
    var reserved := reserved0;
    PassStart(pending, prefs, reserved0);
    while pending != []
      invariant Settling(grants, pending, prefs, reserved0, reserved, reserved) && Fair(contests, drones)
      invariant GrantIndices(grants) + multiset(idled) + EntryIndices(pending) == EntryIndices(waiting)
      invariant forall k :: 0 <= k < |idled| ==> Exhausted(idled[k], prefs, reserved)
      decreases |pending|
    {
      SettlingWaits(grants, pending, prefs, reserved0, reserved, reserved);
      var groups, dropped := Propose(pending, prefs, reserved);
      IndexCount(pending, 0);
      ghost var before, granted, asked := reserved, GrantIndices(grants), EntryIndices(pending);
      grants, contests, reserved, pending := Settle(groups, drones, prefs, reserved0, reserved, grants, contests);
      SettlingGrows(grants, pending, prefs, reserved0, before, reserved);
      forall k | 0 <= k < |idled| ensures Exhausted(idled[k], prefs, reserved) {
        assert Exhausted(idled[k], prefs, before);
      }
      assert multiset(idled + dropped) == multiset(idled) + multiset(dropped);
      Carry(granted, GroupIndices(groups), multiset(idled), multiset(dropped), asked, GrantIndices(grants),
            EntryIndices(pending), EntryIndices(waiting));
      idled := idled + dropped;
    }
    PassEnd(grants, idled, prefs, reserved0, reserved);
    NothingProposed(prefs, reserved);
  }

  lemma NoContests(drones: seq<ConsoleDrone>)
    ensures Fair([], drones)
  {}

  ghost predicate Exhausted(i: nat, prefs: seq<seq<Coord>>, reserved: set<Coord>) {
    i < |prefs| && forall c :: c in prefs[i] ==> c in reserved
  }

  lemma PassStart(pending: seq<Entry>, prefs: seq<seq<Coord>>, reserved0: set<Coord>)
    requires forall k :: 0 <= k < |pending| ==> Waiting(pending[k], prefs, reserved0)
    ensures Settling([], pending, prefs, reserved0, reserved0, reserved0) && GrantIndices([]) == multiset{}
  {
    hide Waiting;
    assert GrantedCells([]) == {};
  }

  lemma PassEnd(grants: seq<Grant>, idled: seq<nat>, prefs: seq<seq<Coord>>, reserved0: set<Coord>,
                reserved: set<Coord>)
    requires Settling(grants, [], prefs, reserved0, reserved, reserved)
    requires forall k :: 0 <= k < |idled| ==> Exhausted(idled[k], prefs, reserved)
    ensures Settled(grants, idled, prefs, reserved0)
  {
    hide Serial, GrantedCells;
    forall k | 0 <= k < |idled|
      ensures idled[k] < |prefs| && forall c :: c in prefs[idled[k]] ==> c in reserved0 + GrantedCells(grants)
    {
      assert Exhausted(idled[k], prefs, reserved);
    }
  }

  lemma SettlingWaits(grants: seq<Grant>, pending: seq<Entry>, prefs: seq<seq<Coord>>, reserved0: set<Coord>,
                      start: set<Coord>, reserved: set<Coord>)
    requires Settling(grants, pending, prefs, reserved0, start, reserved)
    ensures forall k :: 0 <= k < |pending| ==> Waiting(pending[k], prefs, reserved)
    ensures Settling(grants, [], prefs, reserved0, reserved, reserved)
  {
    hide Waiting, Serial;
  }

  lemma SettlingGrows(grants: seq<Grant>, pending: seq<Entry>, prefs: seq<seq<Coord>>, reserved0: set<Coord>,
                      start: set<Coord>, reserved: set<Coord>)
    requires Settling(grants, pending, prefs, reserved0, start, reserved)
    ensures start <= reserved && Settling(grants, pending, prefs, reserved0, reserved, reserved)
  {
    hide Waiting, Serial;
  }

  /** The idle drones, each with its full ranking. */
  method FirstEntries(board: Board, drones: seq<ConsoleDrone>, reserved: set<Coord>) returns (pending: seq<Entry>)
    ensures forall k :: 0 <= k < |pending| ==> Waiting(pending[k], Rankings(board, drones, reserved), reserved)
    ensures forall i: nat :: EntryIndices(pending)[i] == if i < |drones| && Pending(drones[i]) then 1 else 0
  {
    hide BuildCandidates, EntryIndices;
    pending := [];
    NothingProposed([], {});
    for i := 0 to |drones|
      invariant forall k :: 0 <= k < |pending| ==> Waiting(pending[k], Rankings(board, drones, reserved), reserved)
      invariant forall j: nat :: EntryIndices(pending)[j] == if j < i && Pending(drones[j]) then 1 else 0
    {
      if Pending(drones[i]) {
        var e := Entry(i, BuildCandidates(board, drones[i].position, reserved));
        assert Waiting(e, Rankings(board, drones, reserved), reserved);
        EntryAppend(pending, e);
        pending := pending + [e];
      }
    }
  }

  // ----- what a serial dictatorship means -----

  /** Granted cells are pairwise different and none of them was reserved before. */
  lemma {:induction false} SerialDistinct(grants: seq<Grant>, prefs: seq<seq<Coord>>, reserved: set<Coord>)
    requires Serial(grants, prefs, reserved)
    ensures forall i, j :: 0 <= i < j < |grants| ==> grants[i].cell != grants[j].cell
    ensures forall i :: 0 <= i < |grants| ==> grants[i].cell !in reserved
    decreases |grants|
  {
    if grants != [] {
      var front := grants[..|grants| - 1];
      SerialDistinct(front, prefs, reserved);
      assert forall i :: 0 <= i < |front| ==> front[i].cell in GrantedCells(front);
    }
  }

  /** An assignment of cells that every granted drone finds at least as good as its grant. */
  ghost predicate AtLeastAsGood(grants: seq<Grant>, alt: seq<Coord>, board: Board, drones: seq<ConsoleDrone>) {
    && |alt| == |grants|
    && forall k :: 0 <= k < |grants| && grants[k].index < |drones| ==>
         alt[k] == grants[k].cell || Prefers(board, drones[grants[k].index].position, alt[k], grants[k].cell)
  }

  /** No other feasible assignment is better for anybody without being worse for somebody: one that every
      granted drone likes as much is the same assignment. */
  lemma {:induction false} ParetoOptimal(grants: seq<Grant>, alt: seq<Coord>, board: Board, drones: seq<ConsoleDrone>,
                                         reserved: set<Coord>)
    requires Serial(grants, Rankings(board, drones, reserved), reserved)
    requires AtLeastAsGood(grants, alt, board, drones)
    requires forall k :: 0 <= k < |alt| ==> InGrid(alt[k], board.view.size) && alt[k] !in reserved + board.owned
    requires forall i, j :: 0 <= i < j < |alt| ==> alt[i] != alt[j]
    ensures forall k :: 0 <= k < |grants| ==> alt[k] == grants[k].cell
    decreases |grants|
  {
    hide Prefers, BuildCandidates, BestFor;
    if grants != [] {
      var n := |grants| - 1;
      var front, last := grants[..n], grants[n];
      ParetoOptimal(front, alt[..n], board, drones, reserved);
      var taken := reserved + GrantedCells(front);
      forall k | 0 <= k < n ensures front[k].cell != alt[n] {
        assert alt[..n][k] == alt[k];
      }
      assert alt[n] !in taken;
      BestIsPreferred(board, drones[last.index].position, reserved, last.cell, taken, alt[n]);
      PrefersStrict(board, drones[last.index].position, last.cell, alt[n]);
    }
  }

  lemma PrefersStrict(board: Board, from: Coord, a: Coord, b: Coord)
    ensures !(Prefers(board, from, a, b) && Prefers(board, from, b, a))
  {
    hide Precedes;
    PrecedesStrict(board.view, from, a, b);
  }

  /** A granted cell is preferred to every other cell that is still free at that moment. */
  lemma BestIsPreferred(board: Board, from: Coord, reserved: set<Coord>, cell: Coord, taken: set<Coord>, other: Coord)
    requires BestFor(BuildCandidates(board, from, reserved), cell, taken)
    requires InGrid(other, board.view.size) && other !in taken && other !in reserved + board.owned
    ensures other == cell || Prefers(board, from, cell, other)
  {
    hide Prefers, BuildCandidates;
    CandidatesRanked(board, from, reserved);
    var list := BuildCandidates(board, from, reserved);
    var n :| 0 <= n < |list| && list[n] == cell && forall m :: 0 <= m < n ==> list[m] in taken;
    assert other in list;
    var m :| 0 <= m < |list| && list[m] == other;
  }

  /** After a pass no drone prefers a cell that is still free to the one it was granted. */
  lemma {:induction false} NobodyWantsFreeCell(grants: seq<Grant>, board: Board, drones: seq<ConsoleDrone>,
                                               reserved: set<Coord>, k: nat, other: Coord)
    requires Serial(grants, Rankings(board, drones, reserved), reserved) && k < |grants|
    requires InGrid(other, board.view.size) && other !in reserved + board.owned + GrantedCells(grants)
    ensures grants[k].index < |drones| && Prefers(board, drones[grants[k].index].position, grants[k].cell, other)
    decreases |grants|
  {
    hide Prefers, BuildCandidates, BestFor;
    var n := |grants| - 1;
    var front, last := grants[..n], grants[n];
    assert grants == front + [last];
    GrantAppend(front, last);
    if k < n {
      NobodyWantsFreeCell(front, board, drones, reserved, k, other);
    } else {
      BestIsPreferred(board, drones[last.index].position, reserved, last.cell, reserved + GrantedCells(front), other);
    }
  }

  // ----- the pass in plain words -----

  lemma {:induction false} GrantListed(grants: seq<Grant>, k: nat)
    requires k < |grants|
    ensures GrantIndices(grants)[grants[k].index] >= 1
    decreases |grants|
  {
    if k < |grants| - 1 {
      GrantListed(grants[..|grants| - 1], k);
    }
  }

  lemma {:induction false} GrantTwice(grants: seq<Grant>, i: nat, j: nat)
    requires i < j < |grants| && grants[i].index == grants[j].index
    ensures GrantIndices(grants)[grants[i].index] >= 2
    decreases |grants|
  {
    if j < |grants| - 1 {
      GrantTwice(grants[..|grants| - 1], i, j);
    } else {
      GrantListed(grants[..|grants| - 1], i);
    }
  }

  lemma {:induction false} GrantFound(grants: seq<Grant>, i: nat)
    requires GrantIndices(grants)[i] >= 1
    ensures exists k :: 0 <= k < |grants| && grants[k].index == i
    decreases |grants|
  {
    if grants[|grants| - 1].index != i {
      GrantFound(grants[..|grants| - 1], i);
    }
  }

  /** Every idle drone that is not stale is granted one cell, or left without, but not both; nobody else is
      served. */
  lemma ServedOnce(grants: seq<Grant>, idled: seq<nat>, waiting: seq<Entry>, drones: seq<ConsoleDrone>)
    requires GrantIndices(grants) + multiset(idled) == EntryIndices(waiting)
    requires forall i: nat ::
      EntryIndices(waiting)[i] == if i < |drones| && !drones[i].stale && drones[i].status == Idling then 1 else 0
    ensures forall i, j :: 0 <= i < j < |grants| ==> grants[i].index != grants[j].index
    ensures forall k :: 0 <= k < |grants| ==> grants[k].index !in idled
    ensures forall i: nat ::
      (i in idled || exists k :: 0 <= k < |grants| && grants[k].index == i)
      <==> i < |drones| && !drones[i].stale && drones[i].status == Idling
  {
    hide EntryIndices, GrantIndices;
    forall i: nat ensures GrantIndices(grants)[i] + multiset(idled)[i] == EntryIndices(waiting)[i] {
      assert (GrantIndices(grants) + multiset(idled))[i] == EntryIndices(waiting)[i];
    }
    forall i, j | 0 <= i < j < |grants| ensures grants[i].index != grants[j].index {
      if grants[i].index == grants[j].index {
        GrantTwice(grants, i, j);
      }
    }
    forall k | 0 <= k < |grants| ensures grants[k].index !in idled {
      GrantListed(grants, k);
      assert grants[k].index in idled ==> multiset(idled)[grants[k].index] >= 1;
    }
    forall i: nat
      ensures (i in idled || exists k :: 0 <= k < |grants| && grants[k].index == i)
              <==> i < |drones| && !drones[i].stale && drones[i].status == Idling
    {
      assert i in idled <==> multiset(idled)[i] >= 1;
      if GrantIndices(grants)[i] >= 1 {
        GrantFound(grants, i);
      }
      if k :| 0 <= k < |grants| && grants[k].index == i {
        GrantListed(grants, k);
      }
    }
  }

  lemma {:induction false} SerialListed(grants: seq<Grant>, prefs: seq<seq<Coord>>, reserved: set<Coord>, k: nat)
    requires Serial(grants, prefs, reserved) && k < |grants|
    ensures grants[k].index < |prefs| && grants[k].cell in prefs[grants[k].index]
    decreases |grants|
  {
    if k < |grants| - 1 {
      SerialListed(grants[..|grants| - 1], prefs, reserved, k);
    }
  }

  /** A cell that nobody owns and no drone on its way or searching is headed for. */
  ghost predicate Open(board: Board, drones: seq<ConsoleDrone>, c: Coord) {
    && InGrid(c, board.view.size) && c !in board.owned
    && forall i :: 0 <= i < |drones| && !drones[i].stale
                   && (drones[i].status == Transit || drones[i].status == Searching) ==>
         drones[i].target != Some(c)
  }

  lemma OpenExactly(board: Board, drones: seq<ConsoleDrone>, c: Coord)
    ensures Open(board, drones, c) <==> InGrid(c, board.view.size) && c !in HeldCells(drones) + board.owned
  {
    if c in HeldCells(drones) {
      var i :| 0 <= i < |drones| && !drones[i].stale && drones[i].target.Some?
               && (drones[i].status == Transit || drones[i].status == Searching) && drones[i].target.value == c;
    }
  }

  /** After a pass: each granted cell was open and is granted once; a drone left without a cell finds every
      open cell granted; and of the cells still open none has, for a drone that was granted one, more entropy
      than its own, nor as much at a shorter way, nor the same of both in an earlier row or column. */
  lemma PassInWords(board: Board, drones: seq<ConsoleDrone>, grants: seq<Grant>, idled: seq<nat>)
    requires Settled(grants, idled, Rankings(board, drones, HeldCells(drones)), HeldCells(drones))
    ensures forall k :: 0 <= k < |grants| ==> grants[k].index < |drones| && Open(board, drones, grants[k].cell)
    ensures forall i, j :: 0 <= i < j < |grants| ==> grants[i].cell != grants[j].cell
    ensures idled != [] ==> forall c :: Open(board, drones, c) ==> exists k :: 0 <= k < |grants| && grants[k].cell == c
    ensures forall k, c :: 0 <= k < |grants| && Open(board, drones, c)
                           && (forall m :: 0 <= m < |grants| ==> grants[m].cell != c) ==>
      var own, from, entropy := grants[k].cell, drones[grants[k].index].position, board.view.entropy;
      || entropy(own) > entropy(c)
      || (entropy(own) == entropy(c) && DistSquared(from, own) < DistSquared(from, c))
      || (entropy(own) == entropy(c) && DistSquared(from, own) == DistSquared(from, c)
          && (own.y < c.y || (own.y == c.y && own.x < c.x)))
  {
    hide HeldCells, BuildCandidates, Serial, Open, DistSquared;
    var reserved := HeldCells(drones);
    var prefs := Rankings(board, drones, reserved);
    SerialDistinct(grants, prefs, reserved);
    forall k | 0 <= k < |grants| ensures grants[k].index < |drones| && Open(board, drones, grants[k].cell) {
      SerialListed(grants, prefs, reserved, k);
      CandidatesInOrder(board, drones[grants[k].index].position, reserved);
      OpenExactly(board, drones, grants[k].cell);
    }
    forall c | idled != [] && Open(board, drones, c) ensures exists k :: 0 <= k < |grants| && grants[k].cell == c {
      OpenExactly(board, drones, c);
      CandidatesInOrder(board, drones[idled[0]].position, reserved);
      assert c in prefs[idled[0]];
    }
    forall k, c | 0 <= k < |grants| && Open(board, drones, c) && (forall m :: 0 <= m < |grants| ==> grants[m].cell != c)
      ensures Precedes(board.view, drones[grants[k].index].position, false, grants[k].cell, c)
    {
      OpenExactly(board, drones, c);
      assert c !in GrantedCells(grants);
      NobodyWantsFreeCell(grants, board, drones, reserved, k, c);
    }
  }
}
