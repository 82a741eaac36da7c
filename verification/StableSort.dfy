/** `list.sort(key=...)`: stable, by an insertion of each element behind those not above it. */
module StableSort {

  predicate Sorted<T>(key: T -> real, s: seq<T>) {
    forall i, j :: 0 <= i < j < |s| ==> key(s[i]) <= key(s[j])
  }

  function Insert<T>(key: T -> real, x: T, s: seq<T>): seq<T> {
    if s == [] || key(s[|s| - 1]) <= key(x) then s + [x]
    else Insert(key, x, s[..|s| - 1]) + [s[|s| - 1]]
  }

  function Sort<T>(key: T -> real, s: seq<T>): seq<T> {
    if s == [] then [] else Insert(key, s[|s| - 1], Sort(key, s[..|s| - 1]))
  }

  function Filter<T>(p: T -> bool, s: seq<T>): (r: seq<T>)
    ensures forall x :: x in r ==> x in s && p(x)
    ensures forall x :: x in s && p(x) ==> x in r
  {
    if s == [] then []
    else
      assert s == s[..|s| - 1] + [s[|s| - 1]];
      var front := Filter(p, s[..|s| - 1]);
      if p(s[|s| - 1]) then front + [s[|s| - 1]] else front
  }

  lemma FilterNext<T(!new)>(p: T -> bool, s: seq<T>, x: T)
    ensures Filter(p, s + [x]) == if p(x) then Filter(p, s) + [x] else Filter(p, s)
  {
    assert (s + [x])[..|s|] == s;
  }

  lemma {:induction false} FilterConcat<T(!new)>(p: T -> bool, s: seq<T>, t: seq<T>)
    ensures Filter(p, s + t) == Filter(p, s) + Filter(p, t)
  {
    if t == [] {
      assert s + t == s;
    } else {
      assert (s + t)[..|s + t| - 1] == s + t[..|t| - 1];
      FilterConcat(p, s, t[..|t| - 1]);
    }
  }

  lemma BelowLast<T(!new)>(key: T -> real, s: seq<T>)
    requires s != [] && Sorted(key, s)
    ensures s == s[..|s| - 1] + [s[|s| - 1]] && Sorted(key, s[..|s| - 1])
    ensures forall y :: y in s[..|s| - 1] ==> key(y) <= key(s[|s| - 1])
  {
  }

  lemma SortedNext<T(!new)>(key: T -> real, s: seq<T>, x: T)
    requires Sorted(key, s) && forall y :: y in s ==> key(y) <= key(x)
    ensures Sorted(key, s + [x])
  {
  }

  lemma {:induction false} InsertMembers<T(!new)>(key: T -> real, x: T, s: seq<T>)
    ensures |Insert(key, x, s)| == |s| + 1
    ensures forall y :: y in Insert(key, x, s) <==> y == x || y in s
  {
    if s != [] {
      assert s == s[..|s| - 1] + [s[|s| - 1]];
      InsertMembers(key, x, s[..|s| - 1]);
    }
  }

  lemma {:induction false} InsertKeepsSorted<T(!new)>(key: T -> real, x: T, s: seq<T>)
    requires Sorted(key, s)
    ensures Sorted(key, Insert(key, x, s))
  {
    if s == [] {
    } else {
      BelowLast(key, s);
      if key(s[|s| - 1]) <= key(x) {
        SortedNext(key, s, x);
      } else {
        var front := s[..|s| - 1];
        InsertKeepsSorted(key, x, front);
        InsertMembers(key, x, front);
        SortedNext(key, Insert(key, x, front), s[|s| - 1]);
      }
    }
  }

  lemma {:induction false} SortSorts<T(!new)>(key: T -> real, s: seq<T>)
    ensures Sorted(key, Sort(key, s)) && |Sort(key, s)| == |s|
    ensures forall y :: y in Sort(key, s) <==> y in s
  {
    if s != [] {
      assert s == s[..|s| - 1] + [s[|s| - 1]];
      SortSorts(key, s[..|s| - 1]);
      InsertMembers(key, s[|s| - 1], Sort(key, s[..|s| - 1]));
      InsertKeepsSorted(key, s[|s| - 1], Sort(key, s[..|s| - 1]));
    }
  }

  lemma {:induction false} FilterKeepsSorted<T(!new)>(key: T -> real, p: T -> bool, s: seq<T>)
    requires Sorted(key, s)
    ensures Sorted(key, Filter(p, s))
  {
    if s != [] {
      FilterKeepsSorted(key, p, s[..|s| - 1]);
      var front := Filter(p, s[..|s| - 1]);
      assert forall i :: 0 <= i < |front| ==> front[i] in front && front[i] in s[..|s| - 1];
    }
  }

  lemma InsertLast<T(!new)>(key: T -> real, x: T, s: seq<T>)
    requires forall y :: y in s ==> key(y) <= key(x)
    ensures Insert(key, x, s) == s + [x]
  {
  }

  lemma InsertBefore<T(!new)>(key: T -> real, x: T, s: seq<T>, last: T)
    requires key(last) > key(x)
    ensures Insert(key, x, s + [last]) == Insert(key, x, s) + [last]
  {
    assert (s + [last])[..|s|] == s;
  }

  lemma SortNext<T(!new)>(key: T -> real, s: seq<T>, x: T)
    ensures Sort(key, s + [x]) == Insert(key, x, Sort(key, s))
  {
    assert (s + [x])[..|s|] == s;
  }

  lemma {:induction false} FilterOfInsert<T(!new)>(key: T -> real, p: T -> bool, x: T, s: seq<T>)
    requires Sorted(key, s)
    ensures Filter(p, Insert(key, x, s)) == if p(x) then Insert(key, x, Filter(p, s)) else Filter(p, s)
  {
    if s == [] {
      FilterNext(p, s, x);
    } else if key(s[|s| - 1]) <= key(x) {
      BelowLast(key, s);
      FilterNext(p, s, x);
      InsertLast(key, x, Filter(p, s));
    } else {
      var front, last := s[..|s| - 1], s[|s| - 1];
      BelowLast(key, s);
      FilterOfInsert(key, p, x, front);
      FilterNext(p, Insert(key, x, front), last);
      FilterNext(p, front, last);
      InsertBefore(key, x, Filter(p, front), last);
    }
  }

  /** Sorting and selecting commute, because the sort is stable. */
  lemma {:induction false} FilterOfSort<T(!new)>(key: T -> real, p: T -> bool, s: seq<T>)
    ensures Filter(p, Sort(key, s)) == Sort(key, Filter(p, s))
  {
    if s != [] {
      var front, last := s[..|s| - 1], s[|s| - 1];
      assert s == front + [last];
      FilterOfSort(key, p, front);
      SortSorts(key, front);
      SortNext(key, front, last);
      FilterNext(p, front, last);
      FilterOfInsert(key, p, last, Sort(key, front));
      SortNext(key, Filter(p, front), last);
    }
  }

  lemma {:induction false} SortOfSorted<T(!new)>(key: T -> real, s: seq<T>)
    requires Sorted(key, s)
    ensures Sort(key, s) == s
  {
    if s != [] {
      SortOfSorted(key, s[..|s| - 1]);
      assert s == s[..|s| - 1] + [s[|s| - 1]];
    }
  }
}
