/** What the model uses from java.util.Collections and java.util.List.
    Collections.sort is a stable sort; it is modelled by a stable insertion
    sort, which computes the same list for any comparator that is a total
    preorder on the elements (the result of a stable sort is unique). */
module Lists {

  /** Inserts x before the first element it does not compare greater than. */
  function Insert<T>(x: T, s: seq<T>, cmp: (T, T) -> int): (r: seq<T>)
    ensures multiset(r) == multiset(s) + multiset{x}
    ensures |r| == |s| + 1
    ensures r[0] == x || (s != [] && r[0] == s[0])
  {
    if s == [] then [x]
    else if cmp(x, s[0]) <= 0 then [x] + s
    else
      assert s == [s[0]] + s[1..];
      [s[0]] + Insert(x, s[1..], cmp)
  }

  /** Collections.sort(list, cmp). */
  function Sort<T>(s: seq<T>, cmp: (T, T) -> int): (r: seq<T>)
    ensures multiset(r) == multiset(s)
    ensures |r| == |s|
  {
    if s == [] then []
    else
      assert s == [s[0]] + s[1..];
      Insert(s[0], Sort(s[1..], cmp), cmp)
  }

  /** Neighbours are in order. */
  ghost predicate Sorted<T>(s: seq<T>, cmp: (T, T) -> int)
  {
    forall i :: 0 < i < |s| ==> cmp(s[i - 1], s[i]) <= 0
  }

  /** Every earlier element is in order with every later one. */
  ghost predicate SortedPairwise<T>(s: seq<T>, cmp: (T, T) -> int)
  {
    forall i, j :: 0 <= i < j < |s| ==> cmp(s[i], s[j]) <= 0
  }

  /** cmp is a total preorder on the elements of u: the sign flips when the
      arguments are swapped, and "not greater" is transitive. This is the
      contract java.util.Comparator demands. */
  ghost predicate TotalPreorder<T>(u: seq<T>, cmp: (T, T) -> int)
  {
    && (forall a, b | a in u && b in u :: cmp(a, b) > 0 <==> cmp(b, a) < 0)
    && (forall a, b, c | a in u && b in u && c in u :: cmp(a, b) <= 0 && cmp(b, c) <= 0 ==> cmp(a, c) <= 0)
  }

  /** The elements of s that compare equal to k, in order. */
  function Equivalents<T>(s: seq<T>, k: T, cmp: (T, T) -> int): seq<T>
  {
    if s == [] then []
    else (if cmp(s[0], k) == 0 then [s[0]] else []) + Equivalents(s[1..], k, cmp)
  }

  lemma {:induction false} InsertSorted<T>(x: T, s: seq<T>, cmp: (T, T) -> int, u: seq<T>)
    requires TotalPreorder(u, cmp) && x in u && forall e | e in s :: e in u
    requires Sorted(s, cmp)
    ensures Sorted(Insert(x, s, cmp), cmp)
  {
    if s != [] && cmp(x, s[0]) > 0 {
      assert s[0] in u;
      InsertSorted(x, s[1..], cmp, u);
      var r := Insert(x, s, cmp);
      assert r == [s[0]] + Insert(x, s[1..], cmp);
      assert cmp(s[0], r[1]) <= 0 by {
        if r[1] != x { assert r[1] == s[1]; }
      }
    }
  }

  /** The result of Sort is in order. */
  lemma {:induction false} SortSorted<T>(s: seq<T>, cmp: (T, T) -> int)
    requires TotalPreorder(s, cmp)
    ensures Sorted(Sort(s, cmp), cmp)
  {
    SortSortedIn(s, cmp, s);
  }

  lemma {:induction false} SortSortedIn<T>(s: seq<T>, cmp: (T, T) -> int, u: seq<T>)
    requires TotalPreorder(u, cmp) && forall e | e in s :: e in u
    ensures Sorted(Sort(s, cmp), cmp)
  {
    if s != [] {
      SortSortedIn(s[1..], cmp, u);
      var t := Sort(s[1..], cmp);
      forall e | e in t ensures e in u {
        assert e in multiset(t);
        assert e in s[1..];
      }
      InsertSorted(s[0], t, cmp, u);
    }
  }

  /** For a transitive comparator, sorted neighbours give a sorted whole. */
  lemma {:induction false} SortedIsPairwise<T>(s: seq<T>, cmp: (T, T) -> int)
    requires TotalPreorder(s, cmp) && Sorted(s, cmp)
    ensures SortedPairwise(s, cmp)
  {
    forall i, j | 0 <= i < j < |s| ensures cmp(s[i], s[j]) <= 0 {
      var k := i + 1;
      while k < j
        invariant i < k <= j
        invariant cmp(s[i], s[k]) <= 0
      {
        assert s[i] in s && s[k] in s && s[k + 1] in s;
        k := k + 1;
      }
    }
  }

  /** Two elements equivalent to a third are equivalent to each other. */
  lemma EquivalentsAgree<T>(a: T, b: T, k: T, cmp: (T, T) -> int, u: seq<T>)
    requires TotalPreorder(u, cmp) && a in u && b in u && k in u
    requires cmp(a, k) == 0 && cmp(b, k) == 0
    ensures cmp(a, b) == 0
  {
    assert cmp(k, a) == 0 && cmp(k, b) == 0;
    assert cmp(a, b) <= 0;
    assert cmp(b, a) <= 0;
  }

  lemma EquivalentsCons<T>(x: T, s: seq<T>, k: T, cmp: (T, T) -> int)
    ensures Equivalents([x] + s, k, cmp) == (if cmp(x, k) == 0 then [x] else []) + Equivalents(s, k, cmp)
  {
    assert ([x] + s)[1..] == s;
  }

  /** x agrees with every element of s about being equivalent to k. */
  ghost predicate AgreesOnEquivalence<T>(x: T, s: seq<T>, k: T, cmp: (T, T) -> int)
  {
    forall i :: 0 <= i < |s| ==> cmp(x, k) == 0 && cmp(s[i], k) == 0 ==> cmp(x, s[i]) == 0
  }

  lemma SwapEmpty<T>(a: seq<T>, b: seq<T>, q: seq<T>)
    requires a == [] || b == []
    ensures a + (b + q) == b + (a + q)
  {
  }

  lemma {:induction false} InsertEquivalents<T>(x: T, s: seq<T>, k: T, cmp: (T, T) -> int)
    requires AgreesOnEquivalence(x, s, k, cmp)
    ensures Equivalents(Insert(x, s, cmp), k, cmp) == Equivalents([x] + s, k, cmp)
  {
    if s != [] && cmp(x, s[0]) > 0 {
      var s' := s[1..];
      assert s == [s[0]] + s';
      assert AgreesOnEquivalence(x, s', k, cmp) by {
        forall i | 0 <= i < |s'| ensures cmp(x, k) == 0 && cmp(s'[i], k) == 0 ==> cmp(x, s'[i]) == 0 {
          assert s'[i] == s[i + 1];
        }
      }
      InsertEquivalents(x, s', k, cmp);
      assert Insert(x, s, cmp) == [s[0]] + Insert(x, s', cmp);
      EquivalentsPassing(x, s[0], s', Insert(x, s', cmp), k, cmp);
    }
  }

  /** The step of InsertEquivalents: x passing an element it is not
      equivalent to does not change the order of the equivalents of k. */
  lemma EquivalentsPassing<T>(x: T, s0: T, s': seq<T>, r: seq<T>, k: T, cmp: (T, T) -> int)
    requires cmp(x, s0) > 0 && (cmp(x, k) == 0 && cmp(s0, k) == 0 ==> cmp(x, s0) == 0)
    requires Equivalents(r, k, cmp) == Equivalents([x] + s', k, cmp)
    ensures Equivalents([s0] + r, k, cmp) == Equivalents([x] + ([s0] + s'), k, cmp)
  {
    var e0 := if cmp(s0, k) == 0 then [s0] else [];
    var ex := if cmp(x, k) == 0 then [x] else [];
    EquivalentsCons(s0, r, k, cmp);
    EquivalentsCons(x, s', k, cmp);
    EquivalentsCons(x, [s0] + s', k, cmp);
    EquivalentsCons(s0, s', k, cmp);
    SwapEmpty(e0, ex, Equivalents(s', k, cmp));
  }

  /** Sort is stable: the elements equivalent to any k keep their relative
      order. */
  lemma {:induction false} SortStable<T>(s: seq<T>, k: T, cmp: (T, T) -> int)
    requires TotalPreorder(s + [k], cmp)
    ensures Equivalents(Sort(s, cmp), k, cmp) == Equivalents(s, k, cmp)
  {
    SortStableIn(s, k, cmp, s + [k]);
  }

  lemma {:induction false} SortStableIn<T>(s: seq<T>, k: T, cmp: (T, T) -> int, u: seq<T>)
    requires TotalPreorder(u, cmp) && k in u && forall e | e in s :: e in u
    ensures Equivalents(Sort(s, cmp), k, cmp) == Equivalents(s, k, cmp)
  {
    if s != [] {
      var t := Sort(s[1..], cmp);
      forall e | e in t ensures e in u {
        assert e in multiset(t);
        assert e in s[1..];
      }
      assert s[0] in u;
      forall i | 0 <= i < |t| ensures cmp(s[0], k) == 0 && cmp(t[i], k) == 0 ==> cmp(s[0], t[i]) == 0 {
        assert t[i] in t;
        if cmp(s[0], k) == 0 && cmp(t[i], k) == 0 {
          EquivalentsAgree(s[0], t[i], k, cmp, u);
        }
      }
      InsertEquivalents(s[0], t, k, cmp);
      assert ([s[0]] + t)[1..] == t;
      SortStableIn(s[1..], k, cmp, u);
    }
  }

  /** List.indexOf: the first position holding x, or -1. */
  function IndexOf<T(==)>(s: seq<T>, x: T): (r: int)
    ensures -1 <= r < |s|
    ensures r == -1 <==> x !in s
    ensures 0 <= r ==> r < |s| && s[r] == x && x !in s[..r]
  {
    if s == [] then -1
    else if s[0] == x then 0
    else
      var i := IndexOf(s[1..], x);
      assert s == [s[0]] + s[1..];
      if i == -1 then -1
      else
        assert s[..i + 1] == [s[0]] + s[1..][..i];
        i + 1
  }

  /** List.remove(Object): drops the first occurrence of x, if any. */
  function RemoveFirst<T(==)>(s: seq<T>, x: T): seq<T>
  {
    if s == [] then []
    else if s[0] == x then s[1..]
    else [s[0]] + RemoveFirst(s[1..], x)
  }

  /** Removing drops the element at the position indexOf finds. */
  lemma {:induction false} RemoveFirstAt<T>(s: seq<T>, x: T)
    ensures RemoveFirst(s, x) == if IndexOf(s, x) == -1 then s else s[..IndexOf(s, x)] + s[IndexOf(s, x) + 1..]
  {
    if s != [] && s[0] != x {
      RemoveFirstAt(s[1..], x);
      var i := IndexOf(s[1..], x);
      assert s == [s[0]] + s[1..];
      if i != -1 {
        assert s[..i + 1] == [s[0]] + s[1..][..i];
        assert s[i + 2..] == s[1..][i + 1..];
      }
    }
  }

  /** Removing drops exactly one copy of x when x is present. */
  lemma RemoveFirstMultiset<T>(s: seq<T>, x: T)
    ensures multiset(RemoveFirst(s, x)) == multiset(s) - multiset{x}
  {
    RemoveFirstAt(s, x);
    RemovalMultiset(s, x, IndexOf(s, x), RemoveFirst(s, x));
  }

  lemma RemovalMultiset<T>(s: seq<T>, x: T, i: int, r: seq<T>)
    requires i == -1 ==> x !in s && r == s
    requires i != -1 ==> 0 <= i < |s| && s[i] == x && r == s[..i] + s[i + 1..]
    ensures multiset(r) == multiset(s) - multiset{x}
  {
    if i != -1 {
      MultisetRemoveAt(s, i);
    } else {
      assert x !in multiset(s);
    }
  }

  /** Removing keeps the other elements in their order, so a pairwise sorted
      list stays pairwise sorted. */
  lemma RemoveFirstSorted<T>(s: seq<T>, x: T, cmp: (T, T) -> int)
    requires SortedPairwise(s, cmp)
    ensures SortedPairwise(RemoveFirst(s, x), cmp)
  {
    RemoveFirstAt(s, x);
    var i := IndexOf(s, x);
    if i != -1 {
      RemoveAtSorted(s, i, cmp);
    }
  }

  lemma RemoveAtSorted<T>(s: seq<T>, i: int, cmp: (T, T) -> int)
    requires SortedPairwise(s, cmp) && 0 <= i < |s|
    ensures SortedPairwise(s[..i] + s[i + 1..], cmp)
  {
    var r := s[..i] + s[i + 1..];
    forall a, b | 0 <= a < b < |r| ensures cmp(r[a], r[b]) <= 0 {
      var a' := if a < i then a else a + 1;
      var b' := if b < i then b else b + 1;
      assert r[a] == s[a'] && r[b] == s[b'] && a' < b';
    }
  }



  /** Sorting a list that is already in order leaves it as it is. */
  lemma {:induction false} SortOfSorted<T>(s: seq<T>, cmp: (T, T) -> int)
    requires Sorted(s, cmp)
    ensures Sort(s, cmp) == s
  {
    if s != [] {
      assert Sorted(s[1..], cmp);
      SortOfSorted(s[1..], cmp);
      assert s == [s[0]] + s[1..];
    }
  }

  /** No element occurs twice. */
  predicate Distinct<T(==)>(s: seq<T>)
  {
    forall i, j :: 0 <= i < j < |s| ==> s[i] != s[j]
  }

  /** Dropping the element at position i drops one copy of it. */
  lemma MultisetRemoveAt<T>(s: seq<T>, i: int)
    requires 0 <= i < |s|
    ensures multiset(s[..i] + s[i + 1..]) == multiset(s) - multiset{s[i]}
  {
    assert s == s[..i] + [s[i]] + s[i + 1..];
  }

  lemma DistinctRemoveAt<T>(s: seq<T>, i: int)
    requires Distinct(s) && 0 <= i < |s|
    ensures Distinct(s[..i] + s[i + 1..])
  {
    var r := s[..i] + s[i + 1..];
    forall a, b | 0 <= a < b < |r| ensures r[a] != r[b] {
      assert r[a] == s[if a < i then a else a + 1] && r[b] == s[if b < i then b else b + 1];
    }
  }

  lemma DistinctAppend<T>(s: seq<T>, x: T)
    requires Distinct(s) && x !in s
    ensures Distinct(s + [x])
  {
  }

  /** A list is free of repetitions exactly when no element has more than
      one copy in its multiset. */
  lemma {:induction false} DistinctMultiplicity<T>(s: seq<T>)
    ensures Distinct(s) <==> forall x :: multiset(s)[x] <= 1
  {
    if Distinct(s) {
      DistinctSingleCopies(s);
    } else {
      RepeatedTwice(s);
    }
  }

  lemma {:induction false} DistinctSingleCopies<T>(s: seq<T>)
    requires Distinct(s)
    ensures forall x :: multiset(s)[x] <= 1
  {
    if s != [] {
      var s', y := s[..|s| - 1], s[|s| - 1];
      assert s == s' + [y];
      assert Distinct(s');
      DistinctSingleCopies(s');
      assert y !in s';
    }
  }

  lemma RepeatedTwice<T>(s: seq<T>)
    requires !Distinct(s)
    ensures exists x :: multiset(s)[x] >= 2
  {
    var i, j :| 0 <= i < j < |s| && s[i] == s[j];
    assert s == s[..j] + [s[j]] + s[j + 1..];
    assert s[i] in s[..j];
    assert multiset(s)[s[i]] >= 2;
  }

  /** A permutation of a list without repetitions has none either. */
  lemma DistinctPermutation<T>(s: seq<T>, t: seq<T>)
    requires Distinct(s) && multiset(s) == multiset(t)
    ensures Distinct(t)
  {
    DistinctMultiplicity(s);
    DistinctMultiplicity(t);
  }


  lemma RemoveFirstCons<T>(x: T, s: seq<T>, y: T)
    ensures RemoveFirst([x] + s, y) == if x == y then s else [x] + RemoveFirst(s, y)
  {
    assert ([x] + s)[0] == x && ([x] + s)[1..] == s;
  }

  /** Removing an element appended to a list it was not in restores the list. */
  lemma {:induction false} RemoveAppended<T>(s: seq<T>, x: T)
    requires x !in s
    ensures RemoveFirst(s + [x], x) == s
  {
    if s != [] {
      assert s == [s[0]] + s[1..];
      assert s + [x] == [s[0]] + (s[1..] + [x]);
      RemoveAppended(s[1..], x);
      RemoveFirstCons(s[0], s[1..] + [x], x);
    } else {
      RemoveFirstCons(x, [], x);
    }
  }

  /** Removing an element just inserted into a list it was not in restores the list. */
  lemma {:induction false} RemoveInserted<T>(x: T, s: seq<T>, cmp: (T, T) -> int)
    requires x !in s
    ensures RemoveFirst(Insert(x, s, cmp), x) == s
  {
    if s == [] {
      RemoveFirstCons(x, [], x);
    } else if cmp(x, s[0]) <= 0 {
      RemoveFirstCons(x, s, x);
    } else {
      assert s == [s[0]] + s[1..];
      RemoveInserted(x, s[1..], cmp);
      RemoveFirstCons(s[0], Insert(x, s[1..], cmp), x);
    }
  }

  /** In a sorted list, inserting one element and removing another commute. */
  lemma {:induction false} RemoveFirstInsert<T>(x: T, t: seq<T>, y: T, cmp: (T, T) -> int, u: seq<T>)
    requires TotalPreorder(u, cmp) && x in u && forall e | e in t :: e in u
    requires Sorted(t, cmp) && x != y
    ensures RemoveFirst(Insert(x, t, cmp), y) == Insert(x, RemoveFirst(t, y), cmp)
  {
    if t == [] {
      RemoveFirstCons(x, [], y);
    } else if cmp(x, t[0]) <= 0 {
      if |t| > 1 {
        assert t[0] in u && t[1] in u;
        assert cmp(t[0], t[1]) <= 0;
      }
      RemoveFirstInsertFront(x, t, y, cmp);
    } else {
      var t0, t' := t[0], t[1..];
      assert t == [t0] + t';
      assert Insert(x, t, cmp) == [t0] + Insert(x, t', cmp);
      RemoveFirstCons(t0, Insert(x, t', cmp), y);
      RemoveFirstCons(t0, t', y);
      if t0 != y {
        assert Sorted(t', cmp);
        RemoveFirstInsert(x, t', y, cmp, u);
        InsertAfter(x, t0, RemoveFirst(t', y), cmp);
      }
    }
  }

  lemma InsertAfter<T>(x: T, t0: T, r: seq<T>, cmp: (T, T) -> int)
    requires cmp(x, t0) > 0
    ensures Insert(x, [t0] + r, cmp) == [t0] + Insert(x, r, cmp)
  {
    assert ([t0] + r)[0] == t0 && ([t0] + r)[1..] == r;
  }

  /** The case of RemoveFirstInsert where x goes to the front. */
  lemma RemoveFirstInsertFront<T>(x: T, t: seq<T>, y: T, cmp: (T, T) -> int)
    requires x != y && t != [] && cmp(x, t[0]) <= 0
    requires |t| > 1 ==> cmp(x, t[1]) <= 0
    ensures RemoveFirst(Insert(x, t, cmp), y) == Insert(x, RemoveFirst(t, y), cmp)
  {
    InsertBefore(x, t[0], t[1..], cmp);
    assert t == [t[0]] + t[1..];
    RemoveFirstCons(x, t, y);
    InsertFrontOfRemoved(x, t, y, cmp);
  }

  lemma InsertFrontOfRemoved<T>(x: T, t: seq<T>, y: T, cmp: (T, T) -> int)
    requires t != [] && cmp(x, t[0]) <= 0
    requires |t| > 1 ==> cmp(x, t[1]) <= 0
    ensures Insert(x, RemoveFirst(t, y), cmp) == [x] + RemoveFirst(t, y)
  {
    assert t == [t[0]] + t[1..];
    if t[0] == y {
      InsertFrontOfTail(x, t, cmp);
    } else {
      RemoveFirstCons(t[0], t[1..], y);
      InsertBefore(x, t[0], RemoveFirst(t[1..], y), cmp);
    }
  }

  lemma InsertFrontOfTail<T>(x: T, t: seq<T>, cmp: (T, T) -> int)
    requires t != [] && (|t| > 1 ==> cmp(x, t[1]) <= 0)
    ensures RemoveFirst(t, t[0]) == t[1..]
    ensures Insert(x, t[1..], cmp) == [x] + t[1..]
  {
    if |t| > 1 {
      var r := t[1..];
      assert r == [r[0]] + r[1..];
      InsertBefore(x, r[0], r[1..], cmp);
    }
  }

  lemma InsertBefore<T>(x: T, t0: T, r: seq<T>, cmp: (T, T) -> int)
    requires cmp(x, t0) <= 0
    ensures Insert(x, [t0] + r, cmp) == [x] + ([t0] + r)
  {
    assert ([t0] + r)[0] == t0;
  }

  /** Removing an element from a stable sort of a list without repetitions
      gives the stable sort of the list without that element. */
  lemma {:induction false} SortRemoveFirst<T>(s: seq<T>, y: T, cmp: (T, T) -> int, u: seq<T>)
    requires TotalPreorder(u, cmp) && forall e | e in s :: e in u
    requires Distinct(s)
    ensures RemoveFirst(Sort(s, cmp), y) == Sort(RemoveFirst(s, y), cmp)
  {
    if s != [] {
      var s0, s' := s[0], s[1..];
      assert s == [s0] + s';
      RemoveFirstCons(s0, s', y);
      var t := Sort(s', cmp);
      assert Sort(s, cmp) == Insert(s0, t, cmp);
      if s0 == y {
        SortRemoveHead(y, s', cmp);
      } else {
        SortRemoveFirstRest(s0, s', y, cmp, u);
        assert Distinct(s');
        assert forall e | e in s' :: e in s;
        SortRemoveFirst(s', y, cmp, u);
        SortCons(s0, RemoveFirst(s', y), cmp);
      }
    }
  }

  /** The step of SortRemoveFirst where the head is removed. */
  lemma SortRemoveHead<T>(y: T, s': seq<T>, cmp: (T, T) -> int)
    requires y !in s'
    ensures RemoveFirst(Insert(y, Sort(s', cmp), cmp), y) == Sort(s', cmp)
  {
    var t := Sort(s', cmp);
    assert y !in multiset(t) by { assert y !in multiset(s'); }
    RemoveInserted(y, t, cmp);
  }

  lemma SortCons<T>(x: T, r: seq<T>, cmp: (T, T) -> int)
    ensures Sort([x] + r, cmp) == Insert(x, Sort(r, cmp), cmp)
  {
    assert ([x] + r)[0] == x && ([x] + r)[1..] == r;
  }

  /** The step of SortRemoveFirst where the head stays. */
  lemma SortRemoveFirstRest<T>(s0: T, s': seq<T>, y: T, cmp: (T, T) -> int, u: seq<T>)
    requires TotalPreorder(u, cmp) && s0 in u && forall e | e in s' :: e in u
    requires s0 != y
    ensures RemoveFirst(Insert(s0, Sort(s', cmp), cmp), y) == Insert(s0, RemoveFirst(Sort(s', cmp), y), cmp)
  {
    var t := Sort(s', cmp);
    SortSortedIn(s', cmp, u);
    forall e | e in t ensures e in u {
      assert e in multiset(t);
      assert e in s';
    }
    RemoveFirstInsert(s0, t, y, cmp, u);
  }

  /** Stable-sorting a sorted list with a new element and then removing that
      element gives back the list. */
  lemma SortAppendRemove<T>(s: seq<T>, x: T, cmp: (T, T) -> int)
    requires TotalPreorder(s + [x], cmp) && Sorted(s, cmp)
    requires Distinct(s) && x !in s
    ensures RemoveFirst(Sort(s + [x], cmp), x) == s
  {
    DistinctAppend(s, x);
    SortRemoveFirst(s + [x], x, cmp, s + [x]);
    RemoveAppended(s, x);
    SortOfSorted(s, cmp);
  }

}
