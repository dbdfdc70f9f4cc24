/** Python's `sorted`: a stable sort, with the facts the protocols rely on. */
module Sorting {
  import opened Basics

  ghost predicate TotalPreorder<T(!new)>(le: (T, T) -> bool) {
    && (forall a, b :: le(a, b) || le(b, a))
    && (forall a, b, c :: le(a, b) && le(b, c) ==> le(a, c))
  }

  ghost predicate Sorted<T>(s: seq<T>, le: (T, T) -> bool) {
    forall i, j :: 0 <= i < j < |s| ==> le(s[i], s[j])
  }

  /** No two different elements of the list are ranked equal. */
  ghost predicate Strict<T>(s: seq<T>, le: (T, T) -> bool) {
    forall a, b :: a in s && b in s && le(a, b) && le(b, a) ==> a == b
  }

  /** Places an element before everything it does not exceed. */
  function Insert<T>(x: T, s: seq<T>, le: (T, T) -> bool): (r: seq<T>)
    ensures |r| == |s| + 1
    ensures multiset(r) == multiset{x} + multiset(s)
  {
    if s == [] then [x]
    else if le(x, s[0]) then assert [x] + s == [x] + ([s[0]] + s[1..]); [x] + s
    else
      assert s == [s[0]] + s[1..];
      [s[0]] + Insert(x, s[1..], le)
  }

  function Sort<T>(s: seq<T>, le: (T, T) -> bool): (r: seq<T>)
    ensures |r| == |s|
    ensures multiset(r) == multiset(s)
  {
    if s == [] then []
    else
      assert s == [s[0]] + s[1..];
      Insert(s[0], Sort(s[1..], le), le)
  }

  lemma SameElements<T>(a: seq<T>, b: seq<T>)
    requires multiset(a) == multiset(b)
    ensures forall x :: x in a <==> x in b
    ensures |a| == |b|
  {
    forall x ensures x in a <==> x in b {
      assert x in a <==> x in multiset(a);
      assert x in b <==> x in multiset(b);
    }
    assert |multiset(a)| == |a|;
    assert |multiset(b)| == |b|;
  }

  lemma {:induction false} InsertSorted<T(!new)>(x: T, s: seq<T>, le: (T, T) -> bool)
    requires TotalPreorder(le)
    requires Sorted(s, le)
    ensures Sorted(Insert(x, s, le), le)
  {
    if s != [] && !le(x, s[0]) {
      var rest := Insert(x, s[1..], le);
      InsertSorted(x, s[1..], le);
      forall j | 0 <= j < |rest| ensures le(s[0], rest[j]) {
        assert rest[j] in multiset(rest);
        assert rest[j] == x || rest[j] in s[1..];
      }
    } else if s != [] {
      forall j | 0 <= j < |s| ensures le(x, s[j]) {
        assert j > 0 ==> le(s[0], s[j]);
      }
    }
  }

  lemma {:induction false} SortSorts<T(!new)>(s: seq<T>, le: (T, T) -> bool)
    requires TotalPreorder(le)
    ensures Sorted(Sort(s, le), le)
  {
    if s != [] {
      SortSorts(s[1..], le);
      InsertSorted(s[0], Sort(s[1..], le), le);
    }
  }

  lemma SortedHead<T(!new)>(a: seq<T>, b: seq<T>, le: (T, T) -> bool)
    requires Sorted(a, le) && Sorted(b, le) && Strict(a, le)
    requires multiset(a) == multiset(b) && a != [] && b != []
    ensures a[0] == b[0]
  {
    assert a[0] in multiset(b) && b[0] in multiset(a);
    var i :| 0 <= i < |a| && a[i] == b[0];
    var j :| 0 <= j < |b| && b[j] == a[0];
    assert i > 0 ==> le(a[0], a[i]);
    assert j > 0 ==> le(b[0], b[j]);
  }

  lemma TailMultiset<T>(a: seq<T>)
    requires a != []
    ensures multiset(a[1..]) == multiset(a) - multiset{a[0]}
  {
    assert a == [a[0]] + a[1..];
  }

  /** Under a strict order a collection has only one sorted arrangement. */
  lemma {:induction false} SortedUnique<T(!new)>(a: seq<T>, b: seq<T>, le: (T, T) -> bool)
    requires Sorted(a, le) && Sorted(b, le) && Strict(a, le)
    requires multiset(a) == multiset(b)
    ensures a == b
    decreases |a|
  {
    SameElements(a, b);
    if a != [] {
      SortedHead(a, b, le);
      TailMultiset(a);
      TailMultiset(b);
      SortedUnique(a[1..], b[1..], le);
      assert a == [a[0]] + a[1..] && b == [b[0]] + b[1..];
    }
  }

  /** Sorting forgets the order of its input. */
  lemma SortPermutation<T(!new)>(a: seq<T>, b: seq<T>, le: (T, T) -> bool)
    requires TotalPreorder(le) && Strict(a, le)
    requires multiset(a) == multiset(b)
    ensures Sort(a, le) == Sort(b, le)
  {
    SortSorts(a, le);
    SortSorts(b, le);
    SameElements(a, Sort(a, le));
    SortedUnique(Sort(a, le), Sort(b, le), le);
  }

  predicate IdLe(a: DroneId, b: DroneId) {
    a <= b
  }

  lemma SortedIds(ids: seq<DroneId>)
    requires Distinct(ids)
    ensures forall i, j :: 0 <= i < j < |ids| ==> Sort(ids, IdLe)[i] < Sort(ids, IdLe)[j]
    ensures forall id :: id in ids <==> id in Sort(ids, IdLe)
  {
    assert TotalPreorder(IdLe);
    SortSorts(ids, IdLe);
    SameElements(ids, Sort(ids, IdLe));
    DistinctLength(ids);
    var sorted := Sort(ids, IdLe);
    assert Elements(sorted) == Elements(ids);
    RepeatShrinks(sorted);
    forall i, j | 0 <= i < j < |ids| ensures sorted[i] < sorted[j] {
      assert IdLe(sorted[i], sorted[j]);
    }
  }

  /** The order of coordinate pairs: by column, then by row. */
  predicate TupleLe(a: Coord, b: Coord) {
    a.x < b.x || (a.x == b.x && a.y <= b.y)
  }

  ghost predicate Ascending(cells: seq<Coord>) {
    forall i, j :: 0 <= i < j < |cells| ==> TupleLe(cells[i], cells[j]) && cells[i] != cells[j]
  }

  lemma SortAscending(cells: seq<Coord>)
    requires Distinct(cells)
    ensures Ascending(Sort(cells, TupleLe)) && Elements(Sort(cells, TupleLe)) == Elements(cells)
  {
    assert TotalPreorder(TupleLe);
    SortSorts(cells, TupleLe);
    var sorted := Sort(cells, TupleLe);
    SameElements(cells, sorted);
    DistinctLength(cells);
    assert Elements(sorted) == Elements(cells);
    RepeatShrinks(sorted);
  }

  lemma PermutedDistinct<T>(a: seq<T>, b: seq<T>)
    requires Distinct(a) && multiset(a) == multiset(b)
    ensures Distinct(b)
  {
    SameElements(a, b);
    DistinctLength(a);
    assert Elements(a) == Elements(b);
    assert |multiset(a)| == |a| && |multiset(b)| == |b|;
    RepeatShrinks(b);
  }
}
