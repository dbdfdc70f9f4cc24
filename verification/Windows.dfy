/** Bounded memories that forget the oldest entry first. */
module Windows {
  import opened Basics

  /** The last entries of a list. */
  function KeepLast<T>(s: seq<T>, cap: nat): (r: seq<T>)
    ensures |r| == if |s| > cap then cap else |s|
  {
    if |s| > cap then s[|s| - cap..] else s
  }

  lemma KeepLastPush<T>(s: seq<T>, x: T, cap: nat)
    requires |s| <= cap
    ensures KeepLast(s + [x], cap) == if |s| == cap then (s + [x])[1..] else s + [x]
  {}

  /** Keeping the last entries one at a time comes to the same as keeping the last of all. */
  lemma KeepLastAgain<T>(s: seq<T>, x: T, cap: nat)
    ensures KeepLast(KeepLast(s, cap) + [x], cap) == KeepLast(s + [x], cap)
  {}

  /** A new entry, with or without the oldest one gone, leaves a list without repetition. */
  lemma WindowPush<T>(order: seq<T>, seen: set<T>, key: T)
    requires Distinct(order) && Elements(order) == seen && key !in seen
    ensures Distinct(order + [key]) && Elements(order + [key]) == seen + {key}
    ensures |seen + {key}| == |order| + 1
    ensures order != [] ==> order[0] != key
    ensures Distinct((order + [key])[1..])
    ensures Elements((order + [key])[1..]) == seen + {key} - {(order + [key])[0]}
  {
    var longer := order + [key];
    assert key !in Elements(order);
    assert Elements(longer) == Elements(order) + {key};
    assert Distinct(longer);
    DistinctLength(longer);
    assert longer == [longer[0]] + longer[1..];
    assert Elements(longer) == {longer[0]} + Elements(longer[1..]);
    assert longer[0] !in Elements(longer[1..]);
  }
}
