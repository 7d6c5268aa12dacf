// Stable sorting by a key, and filtering.
module Sorting {

  ghost predicate SortedBy<T(!new)>(s: seq<T>, key: T -> int) {
    forall i, j :: 0 <= i < j < |s| ==> key(s[i]) <= key(s[j])
  }

  // Stable insertion: behind every element with the same or a lower key.
  function InsertBy<T(!new)>(s: seq<T>, e: T, key: T -> int): (r: seq<T>)
    ensures |r| == |s| + 1
  {
    if s == [] || key(s[|s| - 1]) <= key(e) then s + [e]
    else InsertBy(s[..|s| - 1], e, key) + [s[|s| - 1]]
  }

  function SortBy<T(!new)>(s: seq<T>, key: T -> int): (r: seq<T>)
    ensures |r| == |s|
  {
    if s == [] then [] else InsertBy(SortBy(s[..|s| - 1], key), s[|s| - 1], key)
  }

  function Filter<T(!new)>(s: seq<T>, p: T -> bool): (r: seq<T>)
    ensures forall x :: x in r <==> x in s && p(x)
  {
    if s == [] then [] else
    var init := Filter(s[..|s| - 1], p);
    assert forall x :: x in s <==> x in s[..|s| - 1] || x == s[|s| - 1];
    if p(s[|s| - 1]) then init + [s[|s| - 1]] else init
  }

  // A sorted list stays sorted behind a greatest element.
  lemma SortedSnoc<T(!new)>(s: seq<T>, e: T, key: T -> int)
    requires SortedBy(s, key) && forall x :: x in s ==> key(x) <= key(e)
    ensures SortedBy(s + [e], key)
  {
  }

  lemma SortedLast<T(!new)>(s: seq<T>, key: T -> int)
    requires SortedBy(s, key) && s != []
    ensures forall x :: x in s ==> key(x) <= key(s[|s| - 1])
  {
    forall x | x in s
      ensures key(x) <= key(s[|s| - 1])
    {
      var i :| 0 <= i < |s| && s[i] == x;
      assert i == |s| - 1 || key(s[i]) <= key(s[|s| - 1]);
    }
  }

  lemma {:induction false} InsertSorts<T(!new)>(s: seq<T>, e: T, key: T -> int)
    requires SortedBy(s, key)
    ensures SortedBy(InsertBy(s, e, key), key) && forall x :: x in InsertBy(s, e, key) <==> x in s || x == e
    decreases |s|
  {
    if s != [] {
      SortedLast(s, key);
      var init, last := s[..|s| - 1], s[|s| - 1];
      assert s == init + [last];
      if key(last) <= key(e) {
        SortedSnoc(s, e, key);
      } else {
        InsertSorts(init, e, key);
        forall x | x in InsertBy(init, e, key)
          ensures key(x) <= key(last)
        {
          assert x in init ==> x in s;
        }
        SortedSnoc(InsertBy(init, e, key), last, key);
      }
    }
  }

  // Sorting sorts, and keeps exactly the elements.
  lemma {:induction false} SortSorts<T(!new)>(s: seq<T>, key: T -> int)
    ensures SortedBy(SortBy(s, key), key) && forall x :: x in SortBy(s, key) <==> x in s
    decreases |s|
  {
    if s != [] {
      var init, last := s[..|s| - 1], s[|s| - 1];
      SortSorts(init, key);
      InsertSorts(SortBy(init, key), last, key);
      assert s == init + [last];
    }
  }

  // Filtering and sorting can change places.
  lemma {:induction false} FilterInsert<T(!new)>(s: seq<T>, e: T, key: T -> int, p: T -> bool)
    requires SortedBy(s, key)
    ensures Filter(InsertBy(s, e, key), p) ==
            if p(e) then InsertBy(Filter(s, p), e, key) else Filter(s, p)
    decreases |s|
  {
    if s == [] {
      FilterSnoc([], e, p);
    } else {
      var init, last := s[..|s| - 1], s[|s| - 1];
      SortedLast(s, key);
      if key(last) <= key(e) {
        FilterSnoc(s, e, p);
        var kept := Filter(s, p);
        assert kept != [] ==> kept[|kept| - 1] in kept;
      } else {
        FilterInsert(init, e, key, p);
        FilterSnoc(InsertBy(init, e, key), last, p);
        FilterSnoc(init, last, p);
        assert s == init + [last];
        InsertBelow(Filter(init, p), last, e, key);
      }
    }
  }

  lemma FilterSnoc<T(!new)>(s: seq<T>, e: T, p: T -> bool)
    ensures Filter(s + [e], p) == if p(e) then Filter(s, p) + [e] else Filter(s, p)
  {
    assert (s + [e])[..|s|] == s;
  }

  lemma InsertBelow<T(!new)>(s: seq<T>, last: T, e: T, key: T -> int)
    requires key(e) < key(last)
    ensures InsertBy(s + [last], e, key) == InsertBy(s, e, key) + [last]
  {
    assert (s + [last])[..|s|] == s;
  }

  lemma {:induction false} FilterSort<T(!new)>(s: seq<T>, key: T -> int, p: T -> bool)
    ensures SortBy(Filter(s, p), key) == Filter(SortBy(s, key), p)
    decreases |s|
  {
    if s != [] {
      var init, last := s[..|s| - 1], s[|s| - 1];
      FilterSort(init, key, p);
      SortSorts(init, key);
      FilterInsert(SortBy(init, key), last, key, p);
      var kept := Filter(init, p);
      assert (kept + [last])[..|kept|] == kept;
    }
  }

  // Sorting a sorted list changes nothing.
  lemma {:induction false} SortSorted<T(!new)>(s: seq<T>, key: T -> int)
    requires SortedBy(s, key)
    ensures SortBy(s, key) == s
    decreases |s|
  {
    if s != [] {
      var init, last := s[..|s| - 1], s[|s| - 1];
      SortSorted(init, key);
      assert s == init + [last];
      if init != [] {
        assert init[|init| - 1] == s[|s| - 2];
      }
    }
  }

  // A list whose elements split into a dropped beginning and a kept end filters to the end.
  lemma {:induction false} FilterSuffix<T(!new)>(s: seq<T>, d: nat, p: T -> bool)
    requires d <= |s| && forall i :: 0 <= i < |s| ==> (p(s[i]) <==> d <= i)
    ensures Filter(s, p) == s[d..]
    decreases |s|
  {
    if s != [] {
      var init := s[..|s| - 1];
      if d < |s| {
        FilterSuffix(init, d, p);
        assert s[d..] == init[d..] + [s[|s| - 1]];
      } else {
        FilterSuffix(init, d - 1, p);
      }
    }
  }

  // A list whose elements split into a kept beginning and a dropped end filters to the beginning.
  lemma {:induction false} FilterPrefix<T(!new)>(s: seq<T>, n: nat, p: T -> bool)
    requires n <= |s| && forall i :: 0 <= i < |s| ==> (p(s[i]) <==> i < n)
    ensures Filter(s, p) == s[..n]
    decreases |s|
  {
    if s != [] {
      var init := s[..|s| - 1];
      if n < |s| {
        FilterPrefix(init, n, p);
        assert init[..n] == s[..n];
      } else {
        FilterPrefix(init, n - 1, p);
        assert s[..n] == init[..n - 1] + [s[|s| - 1]];
      }
    }
  }

  // A list of which exactly a stretch passes the test filters to that stretch.
  lemma {:induction false} FilterSlice<T(!new)>(s: seq<T>, i: nat, j: nat, p: T -> bool)
    requires i <= j <= |s| && forall k :: 0 <= k < |s| ==> (p(s[k]) <==> i <= k < j)
    ensures Filter(s, p) == s[i..j]
    decreases |s|
  {
    if j == |s| {
      FilterSuffix(s, i, p);
    } else {
      var init := s[..|s| - 1];
      FilterSlice(init, i, j, p);
      assert s[i..j] == init[i..j];
    }
  }
}
