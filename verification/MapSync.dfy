/** How peers keep each other's certainty maps: one full snapshot, then deltas; and how copies are merged. */
module MapSync {
  import opened Basics
  import opened Certainty

  // ----- what is published -----

  /** Rounding to four decimals, halves to even. */
  function Round4(value: real): real {
    var scaled := value * 10000.0;
    var low := scaled.Floor;
    var rest := scaled - low as real;
    var units := if rest < 0.5 || (rest == 0.5 && low % 2 == 0) then low else low + 1;
    units as real / 10000.0
  }

  /** The result is a whole number of ten-thousandths, none is nearer, and of two equally near it is the even one. */
  lemma Round4Nearest(value: real) returns (n: int)
    ensures Round4(value) == n as real / 10000.0 && -0.5 <= value * 10000.0 - n as real <= 0.5
    ensures value * 10000.0 - n as real == 0.5 || value * 10000.0 - n as real == -0.5 ==> n % 2 == 0
  {
    var scaled := value * 10000.0;
    var low := scaled.Floor;
    n := if scaled - low as real < 0.5 || (scaled - low as real == 0.5 && low % 2 == 0) then low else low + 1;
  }

  lemma Round4Monotone(a: real, b: real)
    requires a <= b
    ensures Round4(a) <= Round4(b)
  {
    if (a * 10000.0).Floor == (b * 10000.0).Floor {
    } else {
      assert (a * 10000.0).Floor + 1 <= (b * 10000.0).Floor;
    }
  }

  lemma Round4Unit(a: real)
    requires 0.0 <= a <= 1.0
    ensures 0.0 <= Round4(a) <= 1.0
  {
    Round4Monotone(0.0, a);
    Round4Monotone(a, 1.0);
    assert (0.0 * 10000.0).Floor == 0 && (1.0 * 10000.0).Floor == 10000;
  }

  lemma Round4Twice(a: real)
    ensures Round4(Round4(a)) == Round4(a)
  {
    var scaled := Round4(a) * 10000.0;
    assert scaled == scaled.Floor as real;
  }

  function Published(cell: CellState, c: Coord): CellPayload {
    CellPayload(c, Round4(cell.certainty), cell.lastUpdatedMs)
  }

  /** A key as a row would show it. */
  function Rounded(k: Key): Key {
    Key(k.ts, Round4(k.certainty))
  }

  lemma RoundedMonotone(a: Key, b: Key)
    requires !KeyLess(b, a)
    ensures !KeyLess(Rounded(b), Rounded(a))
  {
    if a.certainty <= b.certainty {
      Round4Monotone(a.certainty, b.certainty);
    }
  }

  /** A row shows the rounded key of its cell. */
  lemma RowShows(cell: CellState, c: Coord)
    requires InUnit(cell)
    ensures PayloadKey(Published(cell, c)) == Rounded(KeyOf(cell))
    ensures Rounded(PayloadKey(Published(cell, c))) == PayloadKey(Published(cell, c))
  {
    hide Round4;
    Round4Unit(cell.certainty);
    Round4Twice(cell.certainty);
  }

  /** A later cell is never published with an earlier key. */
  lemma PublishedMonotone(a: CellState, b: CellState, c: Coord)
    requires InUnit(a) && InUnit(b) && !KeyLess(KeyOf(b), KeyOf(a))
    ensures !KeyLess(PayloadKey(Published(b, c)), PayloadKey(Published(a, c)))
  {
    hide Published, Rounded, PayloadKey;
    RowShows(a, c);
    RowShows(b, c);
    RoundedMonotone(KeyOf(a), KeyOf(b));
  }

  /** The payloads of the given cells, in order. */
  function RowsFor(cells: Cells, coords: seq<Coord>): (rows: seq<CellPayload>)
    requires forall c :: c in coords ==> c in cells
    ensures |rows| == |coords|
    ensures forall i :: 0 <= i < |rows| ==> rows[i].cell == coords[i]
  {
    seq(|coords|, i requires 0 <= i < |coords| => assert coords[i] in coords; Published(cells[coords[i]], coords[i]))
  }

  /** The rows that differ from the last ones published. */
  function ChangedRows(current: seq<CellPayload>, last: seq<CellPayload>): (changed: seq<CellPayload>)
    requires |current| == |last|
    ensures forall p :: p in changed <==> exists i :: 0 <= i < |current| && current[i] == p && current[i] != last[i]
  {
    if current == [] then []
    else
      var rest := ChangedRows(current[1..], last[1..]);
      assert forall i :: 1 <= i < |current| ==> current[i] == current[1..][i - 1] && last[i] == last[1..][i - 1];
      if current[0] != last[0] then [current[0]] + rest else rest
  }

  /** What a publication sends, cell by cell: the first time every cell, later exactly those whose rounded
      certainty or time has changed. */
  lemma MessageExactly(cells: Cells, size: nat, last: Option<seq<CellPayload>>, i: nat)
    requires forall c :: InGrid(c, size) ==> c in cells
    requires last.Some? ==>
      && |last.value| == |GridOrder(size)|
      && forall k :: 0 <= k < |last.value| ==> last.value[k].cell == GridOrder(size)[k]
    requires i < |GridOrder(size)|
    ensures var c := GridOrder(size)[i];
      var message := Message(RowsFor(cells, GridOrder(size)), last);
      && c in cells
      && (CellPayload(c, Round4(cells[c].certainty), cells[c].lastUpdatedMs) in message <==>
            last.None? || last.value[i].certainty != Round4(cells[c].certainty)
            || last.value[i].lastUpdatedMs != cells[c].lastUpdatedMs)
  {
    hide Round4;
    var order := GridOrder(size);
    var rows := RowsFor(cells, order);
    assert order[i] in order;
    GridOrderOnce(size);
    if last.Some? {
      var p := rows[i];
      forall k | 0 <= k < |rows| && rows[k] == p ensures k == i {
        assert order[k] == order[i];
      }
    } else {
      assert rows[i] in rows;
    }
  }

  // ----- the sender -----

  /** A sender's map, the rows it published last, and every message it sent so far. */
  datatype Sender = Sender(size: nat, local: Cells, last: Option<seq<CellPayload>>, sent: seq<seq<CellPayload>>)

  datatype SenderEvent =
    | Decay(seconds: real, nowMs: int)
    | Search(cell: Coord, increment: real, author: DroneId, nowMs: int)
    | Hear(payloads: seq<CellPayload>, author: DroneId)
    | Publish

  /** Time only moves forward: a decay comes in a tick later than every stamp in the map, a search in
      the current tick. */
  ghost predicate Enabled(s: Sender, e: SenderEvent) {
    match e
    case Decay(_, nowMs) => forall c :: c in s.local ==> s.local[c].lastUpdatedMs < nowMs
    case Search(cell, increment, _, nowMs) =>
      cell in s.local && increment >= 0.0 && s.local[cell].lastUpdatedMs <= nowMs
    case Hear(_, _) => true
    case Publish => true
  }

  /** What a publication sends: everything the first time, later the rows that changed (if any). */
  function Message(rows: seq<CellPayload>, last: Option<seq<CellPayload>>): seq<CellPayload>
    requires last.Some? ==> |last.value| == |rows|
  {
    match last
    case None => rows
    case Some(old_rows) => ChangedRows(rows, old_rows)
  }

  ghost predicate WellFormed(s: Sender) {
    && (forall c :: c in s.local <==> InGrid(c, s.size))
    && AllInUnit(s.local)
    && (s.last.Some? ==>
          |s.last.value| == |GridOrder(s.size)|
          && forall i :: 0 <= i < |s.last.value| ==> s.last.value[i].cell == GridOrder(s.size)[i])
  }

  /** A search raises one cell, and sends its new certainty as it is, not rounded. */
  function Searched(s: Sender, cell: Coord, increment: real, author: DroneId, nowMs: int): Sender
    requires cell in s.local
  {
    var found := Written(s.local[cell], s.local[cell].certainty + increment, author, nowMs);
    s.(local := s.local[cell := found], sent := s.sent + [[CellPayload(cell, found.certainty, nowMs)]])
  }

  function PublishedAll(s: Sender): Sender
    requires forall c :: InGrid(c, s.size) ==> c in s.local
    requires s.last.Some? ==> |s.last.value| == |GridOrder(s.size)|
  {
    var rows := RowsFor(s.local, GridOrder(s.size));
    s.(last := Some(rows), sent := s.sent + [Message(rows, s.last)])
  }

  /** A search is followed by a publication at once. */
  ghost function After(s: Sender, e: SenderEvent): (t: Sender)
    requires WellFormed(s) && Enabled(s, e)
  {
    match e
    case Decay(seconds, nowMs) => s.(local := DecayedCells(s.local, seconds, nowMs, {}))
    case Search(cell, increment, author, nowMs) => PublishedAll(Searched(s, cell, increment, author, nowMs))
    case Hear(payloads, author) => s.(local := MergedCells(s.local, payloads, author))
    case Publish => PublishedAll(s)
  }

  function Flatten<T(!new)>(messages: seq<seq<T>>): (all: seq<T>)
    ensures forall x :: x in all <==> exists m :: m in messages && x in m
  {
    if messages == [] then []
    else
      assert messages == messages[..|messages| - 1] + [messages[|messages| - 1]];
      Flatten(messages[..|messages| - 1]) + messages[|messages| - 1]
  }

  /** No cell's key goes back. */
  ghost predicate KeysGrow(before: Cells, after: Cells) {
    forall c :: c in before ==> c in after && !KeyLess(KeyOf(after[c]), KeyOf(before[c]))
  }

  lemma PublishShape(s: Sender)
    requires WellFormed(s)
    ensures WellFormed(PublishedAll(s)) && PublishedAll(s).local == s.local
  {
    hide GridOrder, Message, Published;
  }

  lemma SearchShape(s: Sender, cell: Coord, increment: real, author: DroneId, nowMs: int)
    requires WellFormed(s) && Enabled(s, Search(cell, increment, author, nowMs))
    ensures var t := Searched(s, cell, increment, author, nowMs);
      WellFormed(t) && KeysGrow(s.local, t.local)
  {
    hide GridOrder;
  }

  lemma EventsGrowKeys(s: Sender, e: SenderEvent)
    requires WellFormed(s) && Enabled(s, e)
    ensures WellFormed(After(s, e)) && KeysGrow(s.local, After(s, e).local)
  {
    hide PublishedAll, Searched, GridOrder;
    match e
    case Decay(seconds, nowMs) =>
      hide Clamp;
      forall c | c in s.local ensures InUnit(Decayed(s.local[c], seconds, nowMs)) {
        DecayStays(s.local[c], seconds, nowMs);
      }
    case Search(cell, increment, author, nowMs) =>
      SearchShape(s, cell, increment, author, nowMs);
      PublishShape(Searched(s, cell, increment, author, nowMs));
    case Hear(payloads, author) =>
      forall c | c in s.local
        ensures InUnit(MergedAll(s.local[c], payloads, author, c))
        ensures !KeyLess(KeyOf(MergedAll(s.local[c], payloads, author, c)), KeyOf(s.local[c]))
      {
        MergedAllIsLatest(s.local[c], payloads, author, c);
      }
    case Publish => PublishShape(s);
  }

  /** Nothing sent is newer than the map, to four decimals. */
  ghost predicate Behind(cells: Cells, p: CellPayload) {
    p.cell in cells && !KeyLess(PayloadKey(Published(cells[p.cell], p.cell)), Rounded(PayloadKey(p)))
  }

  ghost predicate SentInv(s: Sender) {
    && WellFormed(s)
    && (forall p :: p in Flatten(s.sent) ==> Behind(s.local, p))
    && (s.last.Some? ==> forall i :: 0 <= i < |s.last.value| ==> s.last.value[i] in Flatten(s.sent))
  }

  /** What every run keeps: also, nothing sent is newer than the last rows, to four decimals. */
  ghost predicate SenderInv(s: Sender) {
    SentInv(s) && (s.last.Some? ==> forall i :: 0 <= i < |s.last.value| ==> Newest(s, s.last.value[i]))
  }

  ghost predicate Newest(s: Sender, row: CellPayload) {
    && Rounded(PayloadKey(row)) == PayloadKey(row)
    && forall p :: p in Flatten(s.sent) && p.cell == row.cell ==> !KeyLess(PayloadKey(row), Rounded(PayloadKey(p)))
  }

  lemma KeyLeTrans(a: Key, b: Key, c: Key)
    requires !KeyLess(b, a) && !KeyLess(c, b)
    ensures !KeyLess(c, a)
  {}

  lemma StaysBehind(before: Cells, after: Cells, p: CellPayload)
    requires AllInUnit(before) && AllInUnit(after) && KeysGrow(before, after) && Behind(before, p)
    ensures Behind(after, p)
  {
    hide Published, PayloadKey, Rounded;
    PublishedMonotone(before[p.cell], after[p.cell], p.cell);
    KeyLeTrans(Rounded(PayloadKey(p)), PayloadKey(Published(before[p.cell], p.cell)),
               PayloadKey(Published(after[p.cell], p.cell)));
  }

  lemma FlattenAppend<T(!new)>(messages: seq<seq<T>>, m: seq<T>)
    ensures Flatten(messages + [m]) == Flatten(messages) + m
  {
    assert (messages + [m])[..|messages|] == messages;
  }

  /** The rows of one publication, cell by cell. */
  lemma RowOf(s: Sender, i: nat)
    requires WellFormed(s) && i < |GridOrder(s.size)|
    ensures var rows := RowsFor(s.local, GridOrder(s.size));
            var c := GridOrder(s.size)[i];
            c in s.local && rows[i] == Published(s.local[c], c)
  {
    assert GridOrder(s.size)[i] in GridOrder(s.size);
  }

  /** The raw message of a search is level with the cell it is about. */
  lemma SearchKeepsSent(s: Sender, cell: Coord, increment: real, author: DroneId, nowMs: int)
    requires SentInv(s) && Enabled(s, Search(cell, increment, author, nowMs))
    ensures SentInv(Searched(s, cell, increment, author, nowMs))
    ensures KeysGrow(s.local, Searched(s, cell, increment, author, nowMs).local)
  {
    hide Published, Flatten, Rounded, Behind;
    var t := Searched(s, cell, increment, author, nowMs);
    var raw := CellPayload(cell, t.local[cell].certainty, nowMs);
    FlattenAppend(s.sent, [raw]);
    RowShows(t.local[cell], cell);
    forall p | p in Flatten(t.sent) ensures Behind(t.local, p) {
      if p in Flatten(s.sent) {
        StaysBehind(s.local, t.local, p);
      } else {
        assert p == raw;
        RawBehind(t.local, raw);
      }
    }
  }

  lemma RawBehind(cells: Cells, raw: CellPayload)
    requires raw.cell in cells && InUnit(cells[raw.cell])
    requires raw == CellPayload(raw.cell, cells[raw.cell].certainty, cells[raw.cell].lastUpdatedMs)
    ensures Behind(cells, raw)
  {
    hide Published, Rounded;
    RowShows(cells[raw.cell], raw.cell);
  }

  lemma RowIsSent(s: Sender, i: nat)
    requires SentInv(s) && i < |GridOrder(s.size)|
    ensures RowsFor(s.local, GridOrder(s.size))[i] in Flatten(PublishedAll(s).sent)
  {
    hide Published, Flatten, Behind;
    var rows := RowsFor(s.local, GridOrder(s.size));
    FlattenAppend(s.sent, Message(rows, s.last));
    if s.last.Some? {
      assert rows[i] != s.last.value[i] ==> rows[i] in ChangedRows(rows, s.last.value);
    }
  }

  /** Everything in a publication is one of its rows, and so level with the map. */
  lemma MessageBehind(s: Sender, p: CellPayload)
    requires SentInv(s) && p in Message(RowsFor(s.local, GridOrder(s.size)), s.last)
    ensures Behind(s.local, p)
  {
    hide Published, Flatten, PayloadKey, Rounded;
    var rows := RowsFor(s.local, GridOrder(s.size));
    assert p in rows;
    var j :| 0 <= j < |rows| && rows[j] == p;
    RowOf(s, j);
    RowShows(s.local[p.cell], p.cell);
  }

  lemma PublishKeepsSent(s: Sender)
    requires SentInv(s)
    ensures SentInv(PublishedAll(s))
  {
    hide Flatten, Behind, Message, RowsFor;
    var rows := RowsFor(s.local, GridOrder(s.size));
    FlattenAppend(s.sent, Message(rows, s.last));
    forall p | p in Flatten(PublishedAll(s).sent) ensures Behind(s.local, p) {
      if p in Message(rows, s.last) {
        MessageBehind(s, p);
      }
    }
    forall i | 0 <= i < |rows| ensures rows[i] in Flatten(PublishedAll(s).sent) {
      RowIsSent(s, i);
    }
  }

  lemma RowIsNewest(s: Sender, i: nat)
    requires SentInv(s) && i < |GridOrder(s.size)|
    ensures Newest(PublishedAll(s), PublishedAll(s).last.value[i])
  {
    hide Published, PayloadKey, Rounded, Flatten, Message;
    PublishKeepsSent(s);
    RowOf(s, i);
    var c := GridOrder(s.size)[i];
    RowShows(s.local[c], c);
    var t := PublishedAll(s);
    forall p | p in Flatten(t.sent) && p.cell == c
      ensures !KeyLess(PayloadKey(t.last.value[i]), Rounded(PayloadKey(p)))
    {
      assert Behind(t.local, p);
    }
  }

  lemma PublishKeepsInv(s: Sender)
    requires SentInv(s)
    ensures SenderInv(PublishedAll(s))
  {
    hide Newest, RowsFor, Message, Flatten, Behind;
    PublishKeepsSent(s);
    forall i | 0 <= i < |PublishedAll(s).last.value| ensures Newest(PublishedAll(s), PublishedAll(s).last.value[i]) {
      RowIsNewest(s, i);
    }
  }

  lemma StepKeepsSenderInv(s: Sender, e: SenderEvent)
    requires SenderInv(s) && Enabled(s, e)
    ensures SenderInv(After(s, e))
  {
    hide Behind, Flatten, PayloadKey, Rounded, RowsFor, Message;
    match e
    case Search(cell, increment, author, nowMs) =>
      SearchKeepsSent(s, cell, increment, author, nowMs);
      PublishKeepsInv(Searched(s, cell, increment, author, nowMs));
    case Publish => PublishKeepsInv(s);
    case _ =>
      EventsGrowKeys(s, e);
      var t := After(s, e);
      forall p | p in Flatten(t.sent) ensures Behind(t.local, p) {
        StaysBehind(s.local, t.local, p);
      }
      if s.last.Some? {
        forall i | 0 <= i < |t.last.value| ensures Newest(t, t.last.value[i]) {
          assert Newest(s, s.last.value[i]);
        }
      }
  }

  /** The sender after a whole list of events, each of them possible when it happens. */
  ghost predicate Runs(s: Sender, events: seq<SenderEvent>, t: Sender)
    decreases |events|
  {
    if events == [] then s == t
    else WellFormed(s) && Enabled(s, events[0]) && Runs(After(s, events[0]), events[1..], t)
  }

  ghost predicate Fresh(s: Sender) {
    WellFormed(s) && s.last.None? && s.sent == []
  }

  lemma {:induction false} RunKeepsSenderInv(s: Sender, events: seq<SenderEvent>, t: Sender)
    requires SenderInv(s) && Runs(s, events, t)
    ensures SenderInv(t)
    decreases |events|
  {
    if events != [] {
      StepKeepsSenderInv(s, events[0]);
      RunKeepsSenderInv(After(s, events[0]), events[1..], t);
    }
  }

  // ----- the receiver -----

  /** After any run of the sender, merging everything it sent, in order, gives each cell of the receiver
      the same timestamp and, to four decimals, the same certainty as merging the last full rows alone:
      the later of what it held before and what the sender published last. */
  lemma SnapshotAndDeltasSuffice(s: Sender, events: seq<SenderEvent>, t: Sender, held: CellState,
                                 author: DroneId, i: nat)
    requires Fresh(s) && Runs(s, events, t) && t.last.Some? && i < |t.last.value|
    requires InUnit(held)
    ensures var c := t.last.value[i].cell;
      var latest := Later(Rounded(KeyOf(held)), PayloadKey(t.last.value[i]));
      && Rounded(KeyOf(MergedAll(held, Flatten(t.sent), author, c))) == latest
      && Rounded(KeyOf(MergedAll(held, t.last.value, author, c))) == latest
  {
    hide Published, PayloadKey, MergedAll, Flatten, Rounded, IsLatest, Behind;
    RunKeepsSenderInv(s, events, t);
    var row := t.last.value[i];
    assert Newest(t, row);
    MergedAllIsLatest(held, Flatten(t.sent), author, row.cell);
    RoundedLatest(KeyOf(MergedAll(held, Flatten(t.sent), author, row.cell)), KeyOf(held), Flatten(t.sent), row);
    MergedAllIsLatest(held, t.last.value, author, row.cell);
    forall p | p in t.last.value && p.cell == row.cell ensures !KeyLess(PayloadKey(row), Rounded(PayloadKey(p))) {
      var j :| 0 <= j < |t.last.value| && t.last.value[j] == p;
      assert t.last.value[j] in Flatten(t.sent);
    }
    RoundedLatest(KeyOf(MergedAll(held, t.last.value, author, row.cell)), KeyOf(held), t.last.value, row);
  }

  lemma RoundedLatest(r: Key, start: Key, payloads: seq<CellPayload>, row: CellPayload)
    requires IsLatest(r, start, payloads, row.cell) && row in payloads
    requires Rounded(PayloadKey(row)) == PayloadKey(row)
    requires forall p :: p in payloads && p.cell == row.cell ==> !KeyLess(PayloadKey(row), Rounded(PayloadKey(p)))
    ensures Rounded(r) == Later(Rounded(start), PayloadKey(row))
  {
    hide PayloadKey, Rounded;
    var i :| 0 <= i < |payloads| && payloads[i] == row;
    RoundedMonotone(PayloadKey(row), r);
    RoundedMonotone(start, r);
    if r != start {
      var j :| 0 <= j < |payloads| && payloads[j].cell == row.cell && r == PayloadKey(payloads[j]);
      assert payloads[j] in payloads;
    }
  }

  /** Under loss, repetition and reordering a receiver never gets ahead of the sender's last rows, to
      four decimals, and holds only what it held at first or what the sender once sent. */
  lemma LossyReceiverStaysBehind(s: Sender, events: seq<SenderEvent>, t: Sender, held: CellState,
                                 heard: seq<CellPayload>, author: DroneId, i: nat)
    requires Fresh(s) && Runs(s, events, t) && t.last.Some? && i < |t.last.value|
    requires InUnit(held)
    requires forall p :: p in heard ==> p in Flatten(t.sent)
    ensures var c := t.last.value[i].cell;
      var r := KeyOf(MergedAll(held, heard, author, c));
      && !KeyLess(Later(Rounded(KeyOf(held)), PayloadKey(t.last.value[i])), Rounded(r))
      && !KeyLess(r, KeyOf(held))
      && (r == KeyOf(held) || exists p :: p in Flatten(t.sent) && p.cell == c && r == PayloadKey(p))
  {
    hide Published, PayloadKey, MergedAll, Flatten, Rounded, Behind;
    RunKeepsSenderInv(s, events, t);
    var row := t.last.value[i];
    assert Newest(t, row);
    MergedAllIsLatest(held, heard, author, row.cell);
    var r := KeyOf(MergedAll(held, heard, author, row.cell));
    if r != KeyOf(held) {
      var j :| 0 <= j < |heard| && heard[j].cell == row.cell && r == PayloadKey(heard[j]);
      assert heard[j] in heard;
    }
  }

  /** Without rounding the receiver does get ahead of the row: a copy older than a search, once it has heard
      of the search, is past the published row exactly when rounding took something off. */
  lemma RawPassesRowExactly(held: CellState, found: CellState, author: DroneId, c: Coord)
    requires InUnit(held) && InUnit(found) && held.lastUpdatedMs < found.lastUpdatedMs
    ensures var row := Published(found, c);
      KeyLess(PayloadKey(row),
              KeyOf(MergedAll(held, [CellPayload(c, found.certainty, found.lastUpdatedMs), row], author, c)))
      <==> Round4(found.certainty) < found.certainty
  {
    hide Round4, Merged;
    var raw, row := CellPayload(c, found.certainty, found.lastUpdatedMs), Published(found, c);
    Round4Unit(found.certainty);
    MergeIsJoin(held, raw, author);
    var one := Merged(held, raw.certainty, raw.lastUpdatedMs, author);
    MergeIsJoin(one, row, author);
    assert [raw, row][1..] == [row] && [row][1..] == [];
    assert MergedAll(held, [raw, row], author, c) == MergedAll(one, [row], author, c)
      == MergedAll(Merged(one, row.certainty, row.lastUpdatedMs, author), [], author, c);
  }

  /** Such a search: from 0.5 to 0.50004, published as 0.5. */
  lemma RawPassesRow(s: Sender, author: DroneId)
    requires s == Sender(1, map[Coord(0, 0) := CellState(0.5, 0, author, 0.001)], None, [])
    ensures var search := Search(Coord(0, 0), 0.00004, author, 1000);
      && Fresh(s) && Enabled(s, search)
      && var t := After(s, search);
         |t.last.value| == 1
         && KeyLess(PayloadKey(t.last.value[0]),
                    KeyOf(MergedAll(CellState(0.5, 0, author, 0.001), Flatten(t.sent), author, Coord(0, 0))))
  {
    hide Published, MergedAll;
    var c := Coord(0, 0);
    assert forall d :: InGrid(d, 1) ==> d == c;
    OneCell();
    var search := Search(c, 0.00004, author, 1000);
    var found := CellState(0.50004, 1000, author, 0.001);
    assert Clamp(0.5 + 0.00004) == 0.50004;
    var t := After(s, search);
    assert t.local[c] == found;
    var raw, row := CellPayload(c, 0.50004, 1000), Published(found, c);
    assert t.last.value == [row];
    FlattenAppend([], [raw]);
    FlattenAppend([[raw]], [row]);
    assert t.sent == [[raw]] + [[row]];
    assert [] + [[raw]] == [[raw]];
    assert Flatten(t.sent) == [raw, row];
    assert (0.50004 * 10000.0).Floor == 5000;
    RawPassesRowExactly(s.local[c], found, author, c);
  }

  lemma OneCell()
    ensures GridOrder(1) == [Coord(0, 0)]
  {
    assert RowCells(0, 1) == RowCells(0, 0) + [Coord(0, 0)] == [Coord(0, 0)];
    assert CellsOfRows(1, 1) == CellsOfRows(1, 0) + RowCells(0, 1);
  }

  /** The receiver's own decay breaks the agreement: once it has stamped its copy with a later time, a
      delta the sender produced in between is ignored. */
  lemma ReceiverDecayLosesDelta()
    ensures exists held: CellState, delta: CellPayload, seconds: real, nowMs: int ::
      && InUnit(held) && delta.lastUpdatedMs > held.lastUpdatedMs && nowMs > delta.lastUpdatedMs
      && MergedAll(Decayed(held, seconds, nowMs), [delta], 1, delta.cell) == Decayed(held, seconds, nowMs)
      && KeyOf(MergedAll(held, [delta], 1, delta.cell)) == PayloadKey(delta)
  {
    var held := CellState(0.5, 0, 1, 0.001);
    var delta := CellPayload(Coord(0, 0), 0.55, 1000);
    var stamped := Decayed(held, 1.0, 2000);
    assert MergedAll(stamped, [delta], 1, delta.cell) == MergedAll(stamped, [], 1, delta.cell) == stamped;
    assert MergedAll(held, [delta], 1, delta.cell) == MergedAll(Merged(held, 0.55, 1000, 1), [], 1, delta.cell);
    assert InUnit(held);
  }

  /** Exactly when a delta survives: a stamped copy takes it if and only if the delta's key is later. */
  lemma DeltaSurvivesDecay(held: CellState, delta: CellPayload, seconds: real, nowMs: int, author: DroneId)
    ensures KeyOf(MergedAll(Decayed(held, seconds, nowMs), [delta], author, delta.cell)) == PayloadKey(delta)
      <==> !KeyLess(PayloadKey(delta), KeyOf(Decayed(held, seconds, nowMs)))
  {
    DecayStays(held, seconds, nowMs);
    var stamped := Decayed(held, seconds, nowMs);
    MergeIsJoin(stamped, delta, author);
    var merged := Merged(stamped, delta.certainty, delta.lastUpdatedMs, author);
    assert MergedAll(stamped, [delta], author, delta.cell) == MergedAll(merged, [], author, delta.cell);
  }

  // ----- the peer's handler -----

  /** The map's rows, flattened in row-major order. */
  method ToRows(m: CertaintyMap) returns (rows: seq<CellPayload>)
    requires m.Valid()
    ensures rows == RowsFor(m.View(), GridOrder(m.size))
  {
    hide Published, GridOrder;
    var order := GridOrder(m.size);
    rows := [];
    for i := 0 to |order|
      invariant |rows| == i
      invariant forall k :: 0 <= k < i ==> rows[k] == RowsFor(m.View(), order)[k]
    {
      var c := order[i];
      assert c in order;
      rows := rows + [Published(m.grid[c.y, c.x], c)];
    }
  }

  method ListChanged(current: seq<CellPayload>, last: seq<CellPayload>) returns (changed: seq<CellPayload>)
    requires |current| == |last| && forall i :: 0 <= i < |current| ==> current[i].cell == last[i].cell
    ensures changed == ChangedRows(current, last)
  {
    changed := [];
    for i := 0 to |current|
      invariant changed + ChangedRows(current[i..], last[i..]) == ChangedRows(current, last)
    {
      assert current[i..][0] == current[i] && last[i..][0] == last[i];
      assert current[i..][1..] == current[i + 1..] && last[i..][1..] == last[i + 1..];
      if current[i].certainty != last[i].certainty || current[i].lastUpdatedMs != last[i].lastUpdatedMs {
        changed := changed + [current[i]];
      }
    }
  }

  class PeerMeshHandler {
    const peerId: DroneId
    const localMap: CertaintyMap
    const decayRate: real
    const completionCertainty: real
    var peerMaps: map<DroneId, CertaintyMap>
    var lastSnapshotRows: Option<seq<CellPayload>>
    var peerMapsDirty: bool
    var visitedCells: set<Coord>
    var completedCells: set<Coord>

    ghost predicate Valid()
      reads this, localMap.grid, set d | d in peerMaps :: peerMaps[d].grid
    {
      && localMap.Valid()
      && (lastSnapshotRows.Some? ==>
            |lastSnapshotRows.value| == |GridOrder(localMap.size)|
            && forall i :: 0 <= i < |lastSnapshotRows.value| ==>
                 lastSnapshotRows.value[i].cell == GridOrder(localMap.size)[i])
      && (forall d :: d in peerMaps ==>
            && peerMaps[d].Valid() && peerMaps[d].size == localMap.size
            && (peerMaps[d].grid == localMap.grid ==> d == peerId && peerMaps[d] == localMap))
      && (forall d, e :: d in peerMaps && e in peerMaps && d != e ==> peerMaps[d].grid != peerMaps[e].grid)
    }

    /** A peer starts with its own map as the copy held under its own id. */
    constructor (peerId: DroneId, localMap: CertaintyMap, decayRate: real, completionCertainty: real)
      requires localMap.Valid()
      ensures Valid() && this.localMap == localMap && peerMaps == map[peerId := localMap] && lastSnapshotRows == None
    {
      this.peerId := peerId;
      this.localMap := localMap;
      this.decayRate := decayRate;
      this.completionCertainty := completionCertainty;
      peerMaps := map[peerId := localMap];
      lastSnapshotRows := None;
      peerMapsDirty := true;
      visitedCells := {};
      completedCells := {};
    }

    /** Publishes the whole map the first time, later only what changed, and nothing when nothing did. */
    method PublishLocalMapSnapshot() returns (message: Option<seq<CellPayload>>)
      requires Valid()
      modifies this`lastSnapshotRows
      ensures Valid()
      ensures var rows := RowsFor(localMap.View(), GridOrder(localMap.size));
        && lastSnapshotRows == Some(rows)
        && message == if old(lastSnapshotRows).Some? && Message(rows, old(lastSnapshotRows)) == [] then None
                      else Some(Message(rows, old(lastSnapshotRows)))
    {
      hide RowsFor;
      var rows := ToRows(localMap);
      if lastSnapshotRows.None? {
        lastSnapshotRows := Some(rows);
        return Some(rows);
      }
      var delta := ListChanged(rows, lastSnapshotRows.value);
      lastSnapshotRows := Some(rows);
      return if delta == [] then None else Some(delta);
    }

    method EnsurePeerMap(d: DroneId, nowMs: int, bootstrap: DroneId) returns (m: CertaintyMap)
      requires Valid()
      modifies this`peerMaps
      ensures Valid() && d in peerMaps && peerMaps[d] == m
      ensures d in old(peerMaps) ==> peerMaps == old(peerMaps)
      ensures d !in old(peerMaps) ==> peerMaps == old(peerMaps)[d := m] && fresh(m) && fresh(m.grid)
      ensures d !in old(peerMaps) ==>
        m.View() == map c | c in GridCells(localMap.size) :: CellState(0.5, nowMs, bootstrap, decayRate)
    {
      if d in peerMaps {
        return peerMaps[d];
      }
      m := new CertaintyMap(localMap.size, 0.5, decayRate, nowMs, bootstrap);
      peerMaps := peerMaps[d := m];
    }

    /** Merges payloads into a peer's copy. False stands for the error raised when a payload lies outside
        the grid; the payloads before it stay merged. */
    method MergeIntoPeer(sender: DroneId, payloads: seq<CellPayload>) returns (ok: bool, ghost done: nat)
      requires Valid() && sender in peerMaps
      modifies this`visitedCells, this`completedCells, this`peerMapsDirty, peerMaps[sender].grid
      ensures Valid() && (peerMaps[sender] != localMap ==> localMap.View() == old(localMap.View()))
      ensures done <= |payloads| && (ok <==> done == |payloads|)
      ensures ok <==> forall i :: 0 <= i < |payloads| ==> InGrid(payloads[i].cell, localMap.size)
      ensures peerMaps[sender].View() == MergedCells(old(peerMaps[sender].View()), payloads[..done], sender)
      ensures ok ==> peerMapsDirty
      ensures ok ==> visitedCells == old(visitedCells) + Above(peerMaps[sender].View(), 0.5, true)
      ensures ok ==> completedCells == old(completedCells) + Above(peerMaps[sender].View(), completionCertainty, false)
    {
      hide MergedCells, GridOrder, Above;
      var m := peerMaps[sender];
      var merged := m.MergeRowsTimestamped(payloads, sender);
      done := merged;
      if merged < |payloads| {
        return false, done;
      }
      UpdateVisitedCompleted(m);
      peerMapsDirty := true;
      ok := true;
    }

    /** A received snapshot or delta updates the sender's copy, made on first contact, and no other map. */
    method HandleCertaintyUpdate(sender: DroneId, payloads: seq<CellPayload>, nowMs: int, bootstrap: DroneId)
        returns (ok: bool, ghost held: Cells, ghost done: nat)
      requires Valid()
      modifies this`peerMaps, this`visitedCells, this`completedCells, this`peerMapsDirty
      modifies if sender in peerMaps then {peerMaps[sender].grid} else {}
      ensures Valid() && peerMaps.Keys == old(peerMaps.Keys) + {sender}
      ensures forall d :: d in old(peerMaps) ==> peerMaps[d] == old(peerMaps[d])
      ensures held == if sender in old(peerMaps) then old(peerMaps[sender].View())
                      else map c | c in GridCells(localMap.size) :: CellState(0.5, nowMs, bootstrap, decayRate)
      ensures done <= |payloads|
      ensures ok <==> forall i :: 0 <= i < |payloads| ==> InGrid(payloads[i].cell, localMap.size)
      ensures peerMaps[sender].View() == MergedCells(held, if ok then payloads else payloads[..done], sender)
      ensures ok ==> peerMapsDirty
    {
      hide MergedCells, GridOrder, Above;
      var m := EnsurePeerMap(sender, nowMs, bootstrap);
      held := m.View();
      ok, done := MergeIntoPeer(sender, payloads);
      assert payloads[..|payloads|] == payloads;
    }

    method MergeCellInto(m: CertaintyMap, p: CellPayload, searcher: DroneId) returns (ok: bool)
      requires Valid() && (m == localMap || (searcher in peerMaps && m == peerMaps[searcher]))
      modifies this`visitedCells, this`completedCells, this`peerMapsDirty, m.grid
      ensures Valid() && m.Valid() && ok == InGrid(p.cell, m.size)
      ensures m.View() == if ok
        then old(m.View())[p.cell := Merged(old(m.View())[p.cell], p.certainty, p.lastUpdatedMs, searcher)]
        else old(m.View())
      ensures ok ==> peerMapsDirty
      ensures visitedCells == old(visitedCells) + (if ok && p.certainty > 0.5 then {p.cell} else {})
      ensures completedCells
          == old(completedCells) + (if ok && p.certainty >= completionCertainty then {p.cell} else {})
    {
      hide GridOrder, Merged;
      ok := m.MergeCell(p.cell, p.certainty, p.lastUpdatedMs, searcher);
      if ok {
        visitedCells := visitedCells + if p.certainty > 0.5 then {p.cell} else {};
        completedCells := completedCells + if p.certainty >= completionCertainty then {p.cell} else {};
        peerMapsDirty := true;
      }
    }

    /** A single cell as its searcher sent it: it goes to the searcher's copy, or to the local map when the
        searcher is this peer. False stands for the error raised outside the grid. */
    method HandleCellUpdate(searcher: DroneId, p: CellPayload, nowMs: int, bootstrap: DroneId)
        returns (ok: bool, ghost held: Cells)
      requires Valid()
      modifies this`peerMaps, this`visitedCells, this`completedCells, this`peerMapsDirty
      modifies if searcher == peerId then {localMap.grid}
               else if searcher in peerMaps then {peerMaps[searcher].grid} else {}
      ensures Valid() && ok == InGrid(p.cell, localMap.size)
      ensures peerMaps.Keys == old(peerMaps.Keys) + (if searcher == peerId then {} else {searcher})
      ensures forall d :: d in old(peerMaps) ==> peerMaps[d] == old(peerMaps[d])
      ensures held == if searcher == peerId then old(localMap.View())
                      else if searcher in old(peerMaps) then old(peerMaps[searcher].View())
                      else map c | c in GridCells(localMap.size) :: CellState(0.5, nowMs, bootstrap, decayRate)
      ensures (if searcher == peerId then localMap else peerMaps[searcher]).View()
              == if ok then held[p.cell := Merged(held[p.cell], p.certainty, p.lastUpdatedMs, searcher)] else held
      ensures ok ==> peerMapsDirty
      ensures visitedCells == old(visitedCells) + (if ok && p.certainty > 0.5 then {p.cell} else {})
      ensures completedCells
          == old(completedCells) + (if ok && p.certainty >= completionCertainty then {p.cell} else {})
    {
      hide GridOrder, Merged;
      var target := localMap;
      if searcher != peerId {
        target := EnsurePeerMap(searcher, nowMs, bootstrap);
      }
      held := target.View();
      ok := MergeCellInto(target, p, searcher);
    }

    ghost function PeerView(d: DroneId): Cells
      requires Valid() && d in peerMaps
      reads this, localMap.grid, set d | d in peerMaps :: peerMaps[d].grid
    {
      peerMaps[d].View()
    }

    method MergePeer(merged: CertaintyMap, d: DroneId)
      requires Valid() && d in peerMaps && merged.Valid() && merged.size == localMap.size
      requires merged.grid != localMap.grid && forall e :: e in peerMaps ==> peerMaps[e].grid != merged.grid
      modifies merged.grid
      ensures Valid() && merged.Valid()
      ensures forall e :: e in peerMaps ==> PeerView(e) == old(PeerView(e))
      ensures merged.View() == JoinedCells(old(merged.View()), PeerView(d))
    {
      hide JoinedCells, GridOrder, Only, Stopped;
      ghost var theirs := PeerView(d);
      var ok, done := merged.MergeTimestampedFrom(peerMaps[d]);
      SameSizeWhole(theirs, merged.size, ok, done);
    }

    /** Merges the copies of the listed peers, one after the other. */
    method MergePeers(merged: CertaintyMap, ids: seq<DroneId>) returns (ghost views: seq<Cells>)
      requires Valid() && merged.Valid() && merged.size == localMap.size && merged.grid != localMap.grid
      requires forall d :: d in peerMaps ==> peerMaps[d].grid != merged.grid
      requires forall i :: 0 <= i < |ids| ==> ids[i] in peerMaps
      modifies merged.grid
      ensures Valid() && merged.Valid() && |views| == |ids|
      ensures forall i :: 0 <= i < |ids| ==> views[i] == PeerView(ids[i])
      ensures merged.View() == JoinedAll(old(merged.View()), views)
    {
      hide JoinedCells, JoinedAll, GridOrder;
      ghost var start := merged.View();
      views := [];
      JoinedNone(start);
      for i := 0 to |ids|
        invariant Valid() && merged.Valid() && |views| == i
        invariant forall k :: 0 <= k < i ==> views[k] == PeerView(ids[k])
        invariant merged.View() == JoinedAll(start, views)
      {
        var d: DroneId := ids[i];
        MergePeer(merged, d);
        JoinedAllAppend(start, views, PeerView(d));
        views := views + [PeerView(d)];
      }
    }

    method StartFromLocal(merged: CertaintyMap)
      requires Valid() && merged.Valid() && merged.size == localMap.size && merged.grid != localMap.grid
      requires forall d :: d in peerMaps ==> peerMaps[d].grid != merged.grid
      modifies merged.grid
      ensures Valid() && merged.Valid() && merged.View() == localMap.View()
    {
      hide GridOrder, Only, Stopped;
      ghost var local, was := localMap.View(), merged.View();
      var ok, done := merged.ResetFrom(localMap);
      SameSizeWhole(local, merged.size, ok, done);
      assert was + local == local;
    }

    /** Rebuilds the merged map from the local one and every peer's copy, unless nothing changed. */
    method RecomputeMergedMap(merged: CertaintyMap, force: bool)
        returns (rebuilt: bool, ghost order: seq<DroneId>, ghost views: seq<Cells>)
      requires Valid() && merged.Valid() && merged.size == localMap.size && merged.grid != localMap.grid
      requires forall d :: d in peerMaps ==> peerMaps[d].grid != merged.grid
      modifies this`peerMapsDirty, merged.grid
      ensures Valid() && merged.Valid()
      ensures rebuilt <==> force || old(peerMapsDirty)
      ensures !rebuilt ==> merged.View() == old(merged.View()) && peerMapsDirty == old(peerMapsDirty)
      ensures rebuilt ==> !peerMapsDirty && merged.View() == JoinedAll(localMap.View(), views)
      ensures rebuilt ==> Elements(order) == peerMaps.Keys && Distinct(order) && |views| == |order|
      ensures rebuilt ==> forall i :: 0 <= i < |order| ==> order[i] in peerMaps && views[i] == PeerView(order[i])
    {
      hide JoinedCells, JoinedAll, GridOrder, Distinct, Elements;
      order, views := [], [];
      if !force && !peerMapsDirty {
        return false, order, views;
      }
      StartFromLocal(merged);
      var ids := ListSet(peerMaps.Keys);
      order := ids;
      assert merged.View() == localMap.View();
      views := MergePeers(merged, ids);
      peerMapsDirty := false;
      rebuilt := true;
    }

    method UpdateVisitedCompleted(m: CertaintyMap)
      requires m.Valid()
      modifies this`visitedCells, this`completedCells
      ensures visitedCells == old(visitedCells) + Above(m.View(), 0.5, true)
      ensures completedCells == old(completedCells) + Above(m.View(), completionCertainty, false)
    {
      visitedCells := visitedCells + set c | c in GridCells(m.size) && m.grid[c.y, c.x].certainty > 0.5;
      completedCells := completedCells
                        + set c | c in GridCells(m.size) && m.grid[c.y, c.x].certainty >= completionCertainty;
    }
  }

  /** The cells whose certainty reaches a threshold, or passes it when the bound is strict. */
  ghost function Above(cells: Cells, threshold: real, strict: bool): set<Coord> {
    set c | c in cells && (cells[c].certainty > threshold || (!strict && cells[c].certainty == threshold))
  }

  lemma JoinedNone(cells: Cells)
    ensures JoinedAll(cells, []) == cells
  {}

  // ----- the HTTP merger -----

  /** The winning entry for one cell among the peers' exported grids; None stands for the default cell. */
  method BestCell(exported: seq<Option<CellPayload>>) returns (best: Option<CellPayload>)
    ensures best.None? <==> forall i :: 0 <= i < |exported| && exported[i].Some? ==>
      !KeyLess(Key(-1, -1.0), RawKey(exported[i].value))
    ensures best.Some? ==> best in exported
    ensures best.Some? ==> forall i :: 0 <= i < |exported| && exported[i].Some? ==>
      !KeyLess(RawKey(best.value), RawKey(exported[i].value))
  {
    best := None;
    var bestCertainty, bestLastUpdatedMs := -1.0, -1;
    for i := 0 to |exported|
      invariant best.None? ==> bestCertainty == -1.0 && bestLastUpdatedMs == -1
      invariant best.Some? ==> RawKey(best.value) == Key(bestLastUpdatedMs, bestCertainty) && best in exported
      invariant best.Some? ==> KeyLess(Key(-1, -1.0), RawKey(best.value))
      invariant forall k :: 0 <= k < i && exported[k].Some? ==>
        !KeyLess(Key(bestLastUpdatedMs, bestCertainty), RawKey(exported[k].value))
    {
      if exported[i].None? {
        continue;
      }
      var cell := exported[i].value;
      if cell.lastUpdatedMs > bestLastUpdatedMs
         || (cell.lastUpdatedMs == bestLastUpdatedMs && cell.certainty > bestCertainty) {
        bestCertainty := cell.certainty;
        bestLastUpdatedMs := cell.lastUpdatedMs;
        best := exported[i];
      }
    }
  }

  function RawKey(p: CellPayload): Key {
    Key(p.lastUpdatedMs, p.certainty)
  }

  /** The merger shows, for each cell, the row that the peers' own merge of the cell would publish. */
  lemma HttpAgreesWithMerge(exported: seq<Option<CellPayload>>, best: CellPayload, cells: seq<Cells>, c: Coord)
    requires cells != [] && |exported| == |cells|
    requires forall i :: 0 <= i < |cells| ==> AllInUnit(cells[i]) && c in cells[i]
    requires forall i :: 0 <= i < |cells| ==> exported[i] == Some(Published(cells[i][c], c))
    requires Some(best) in exported
    requires forall i :: 0 <= i < |exported| && exported[i].Some? ==> !KeyLess(RawKey(best), RawKey(exported[i].value))
    ensures c in JoinedAll(cells[0], cells[1..])
    ensures RawKey(Published(JoinedAll(cells[0], cells[1..])[c], c)) == RawKey(best)
  {
    hide Round4, JoinedAll;
    JoinedAllIsLatest(cells[0], cells[1..], c);
    var r := KeyOf(JoinedAll(cells[0], cells[1..])[c]);
    var i :| 0 <= i < |exported| && exported[i] == Some(best);
    assert i > 0 ==> cells[i] == cells[1..][i - 1];
    assert RawKey(best) == Rounded(KeyOf(cells[i][c]));
    RoundedMonotone(KeyOf(cells[i][c]), r);
    if r != KeyOf(cells[0][c]) {
      var k :| 0 <= k < |cells[1..]| && c in cells[1..][k] && r == KeyOf(cells[1..][k][c]);
      assert cells[1..][k] == cells[k + 1];
      assert Rounded(r) == RawKey(exported[k + 1].value);
    } else {
      assert Rounded(r) == RawKey(exported[0].value);
    }
  }
}
