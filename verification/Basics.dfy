/** Values shared by every component: ids, grid coordinates and distances. */
module Basics {

  datatype Option<+T> = None | Some(value: T)

  /** Drones, peers and voters are told apart and put in order by their id strings.
      An id is represented by its rank in that order. */
  type DroneId = int

  /** A grid coordinate; the second component of the source's tuples is the row. */
  datatype Coord = Coord(x: int, y: int)

  predicate InGrid(c: Coord, size: nat) {
    0 <= c.x < size && 0 <= c.y < size
  }

  function Abs(n: int): nat {
    if n < 0 then -n else n
  }

  function Manhattan(a: Coord, b: Coord): nat {
    Abs(a.x - b.x) + Abs(a.y - b.y)
  }

  /** The square of the Euclidean distance: the same order, in exact arithmetic. */
  function DistSquared(a: Coord, b: Coord): int {
    (a.x - b.x) * (a.x - b.x) + (a.y - b.y) * (a.y - b.y)
  }

  /** Along a row or a column it is the square of the way; around a corner the two squares add up. */
  lemma RightAngle(a: Coord, b: Coord)
    ensures a.x == b.x || a.y == b.y ==> DistSquared(a, b) == Manhattan(a, b) * Manhattan(a, b)
    ensures DistSquared(a, b) == DistSquared(a, Coord(b.x, a.y)) + DistSquared(Coord(b.x, a.y), b)
  {
    if a.x == b.x {
      SquareOfAbs(a.y - b.y);
    } else if a.y == b.y {
      SquareOfAbs(a.x - b.x);
    }
  }

  lemma SquareOfAbs(n: int)
    ensures Abs(n) * Abs(n) == n * n
  {}

  predicate Adjacent(a: Coord, b: Coord) {
    Manhattan(a, b) == 1
  }

  /** Row-major order: by row, then by column. */
  predicate RowMajorLess(a: Coord, b: Coord) {
    a.y < b.y || (a.y == b.y && a.x < b.x)
  }

  ghost predicate Distinct<T>(s: seq<T>) {
    forall i, j :: 0 <= i < j < |s| ==> s[i] != s[j]
  }

  function Elements<T>(s: seq<T>): set<T> {
    set x | x in s
  }

  /** The cells of a square grid. */
  function GridCells(size: nat): set<Coord> {
    set x, y | 0 <= x < size && 0 <= y < size :: Coord(x, y)
  }

  lemma GridCellsExact(size: nat, c: Coord)
    ensures c in GridCells(size) <==> InGrid(c, size)
  {
    if InGrid(c, size) {
      assert c == Coord(c.x, c.y);
    }
  }

  lemma {:induction false} DistinctLength<T>(s: seq<T>)
    requires Distinct(s)
    ensures |Elements(s)| == |s|
  {
    if s == [] {
      assert Elements(s) == {};
    } else {
      var front, last := s[..|s| - 1], s[|s| - 1];
      DistinctLength(front);
      assert Elements(s) == Elements(front) + {last} by {
        assert s == front + [last];
      }
      assert last !in Elements(front);
    }
  }

  lemma SubsetSize<T>(a: set<T>, b: set<T>)
    requires a <= b
    ensures |a| <= |b|
    ensures |a| == |b| ==> a == b
  {
    assert b == a + (b - a);
    assert |b| == |a| + |b - a|;
  }

  /** A list without repetition whose elements all lie in a set is no longer than the set. */
  lemma DistinctWithin<T>(s: seq<T>, all: set<T>)
    requires Distinct(s)
    requires forall x :: x in s ==> x in all
    ensures |s| <= |all|
  {
    DistinctLength(s);
    SubsetSize(Elements(s), all);
  }

  /** A list with as many different elements as entries repeats none. */
  lemma {:induction false} RepeatShrinks<T>(s: seq<T>)
    ensures |Elements(s)| <= |s|
    ensures |Elements(s)| == |s| ==> Distinct(s)
  {
    if s == [] {
      assert Elements(s) == {};
    } else {
      var front, last := s[..|s| - 1], s[|s| - 1];
      RepeatShrinks(front);
      assert s == front + [last];
      assert Elements(s) == Elements(front) + {last};
    }
  }

  /** Some listing of a set, each element once. */
  method ListSet<T(==)>(items: set<T>) returns (listed: seq<T>)
    ensures Distinct(listed) && Elements(listed) == items
    ensures forall i :: 0 <= i < |listed| ==> listed[i] in items
  {
    listed := [];
    var rest := items;
    while rest != {}
      invariant rest <= items
      invariant Distinct(listed) && Elements(listed) == items - rest
    {
      var c :| c in rest;
      assert c !in Elements(listed);
      assert Elements(listed + [c]) == Elements(listed) + {c};
      listed := listed + [c];
      rest := rest - {c};
    }
    assert forall i :: 0 <= i < |listed| ==> listed[i] in Elements(listed);
  }

  function RowCells(y: nat, n: nat): (cells: seq<Coord>)
    ensures forall c :: c in cells <==> 0 <= c.x < n && c.y == y
  {
    if n == 0 then [] else RowCells(y, n - 1) + [Coord(n - 1, y)]
  }

  /** The cells of the first rows, in row-major order. */
  function CellsOfRows(size: nat, rows: nat): (cells: seq<Coord>)
    ensures forall c :: c in cells <==> 0 <= c.x < size && 0 <= c.y < rows
  {
    if rows == 0 then [] else CellsOfRows(size, rows - 1) + RowCells(rows - 1, size)
  }

  lemma {:induction false} RowDistinct(y: nat, n: nat)
    ensures Distinct(RowCells(y, n))
  {
    if n > 0 {
      RowDistinct(y, n - 1);
      assert Coord(n - 1, y) !in RowCells(y, n - 1);
    }
  }

  lemma AppendDistinct<T>(a: seq<T>, b: seq<T>)
    requires Distinct(a) && Distinct(b) && forall x :: x in a ==> x !in b
    ensures Distinct(a + b)
  {
    forall i, j | 0 <= i < |a| && 0 <= j < |b| ensures a[i] != b[j] {
      assert a[i] in a && b[j] in b;
    }
  }

  lemma {:induction false} RowsDistinct(size: nat, rows: nat)
    ensures Distinct(CellsOfRows(size, rows))
  {
    if rows > 0 {
      RowsDistinct(size, rows - 1);
      RowDistinct(rows - 1, size);
      AppendDistinct(CellsOfRows(size, rows - 1), RowCells(rows - 1, size));
    }
  }
}
