/** `Array.prototype.sort` with a comparator, as the application uses it:
    `bulkDelete` sorts the selected indices in descending order and
    `renderResources` sorts the cards pinned-first, newest-first.
    The comparator is given as the "may come first" relation `le`. */
module Sorting {

  /** `le` is total and transitive: what a consistent comparator induces. */
  ghost predicate TotalPreorder<T(!new)>(le: (T, T) -> bool)
  {
    && (forall a, b :: le(a, b) || le(b, a))
    && (forall a, b, c :: le(a, b) && le(b, c) ==> le(a, c))
  }

  predicate SortedBy<T>(s: seq<T>, le: (T, T) -> bool)
  {
    forall i, j :: 0 <= i < j < |s| ==> le(s[i], s[j])
  }

  /** No value occurs twice. */
  predicate Distinct<T(==)>(s: seq<T>)
  {
    forall i, j :: 0 <= i < j < |s| ==> s[i] != s[j]
  }

  /** Puts `x` in front of the first element it may precede. */
  function Insert<T(==)>(x: T, s: seq<T>, le: (T, T) -> bool): (r: seq<T>)
    ensures |r| == |s| + 1
    ensures multiset(r) == multiset(s) + multiset{x}
    decreases |s|
  {
    if s == [] || le(x, s[0]) then [x] + s
    else
      assert s == [s[0]] + s[1..];
      [s[0]] + Insert(x, s[1..], le)
  }

  /** Insertion sort: a permutation of `s`. */
  function Sort<T(==)>(s: seq<T>, le: (T, T) -> bool): (r: seq<T>)
    ensures |r| == |s|
    ensures multiset(r) == multiset(s)
    decreases |s|
  {
    if s == [] then []
    else
      assert s == [s[0]] + s[1..];
      Insert(s[0], Sort(s[1..], le), le)
  }

  lemma {:induction false} InsertSorted<T(!new)>(x: T, s: seq<T>, le: (T, T) -> bool)
    requires TotalPreorder(le) && SortedBy(s, le)
    ensures SortedBy(Insert(x, s, le), le)
    decreases |s|
  {
    if s != [] && !le(x, s[0]) {
      var t := Insert(x, s[1..], le);
      InsertSorted(x, s[1..], le);
      forall k | 0 <= k < |t| ensures le(s[0], t[k]) {
        assert t[k] in multiset(t);
        if t[k] != x {
          assert t[k] in multiset(s[1..]);
          var j :| 0 <= j < |s[1..]| && s[1..][j] == t[k];
          assert s[j + 1] == t[k];
        }
      }
      assert Insert(x, s, le) == [s[0]] + t;
    } else if s != [] {
      assert Insert(x, s, le) == [x] + s;
    }
  }

  /** The result of `Sort` is ordered by any consistent comparator. */
  lemma {:induction false} SortSorted<T(!new)>(s: seq<T>, le: (T, T) -> bool)
    requires TotalPreorder(le)
    ensures SortedBy(Sort(s, le), le)
    decreases |s|
  {
    if s != [] {
      SortSorted(s[1..], le);
      InsertSorted(s[0], Sort(s[1..], le), le);
    }
  }

  lemma {:induction false} InsertDistinct<T>(x: T, s: seq<T>, le: (T, T) -> bool)
    requires Distinct(s) && x !in s
    ensures Distinct(Insert(x, s, le))
    decreases |s|
  {
    if s != [] && !le(x, s[0]) {
      var t := Insert(x, s[1..], le);
      InsertDistinct(x, s[1..], le);
      assert s[0] !in multiset(t) by {
        assert s[0] != x;
        assert s[0] !in s[1..];
      }
      assert Insert(x, s, le) == [s[0]] + t;
    }
  }

  /** Sorting a list without repetitions gives a list without repetitions. */
  lemma {:induction false} SortDistinct<T>(s: seq<T>, le: (T, T) -> bool)
    requires Distinct(s)
    ensures Distinct(Sort(s, le))
    decreases |s|
  {
    if s != [] {
      SortDistinct(s[1..], le);
      assert s[0] !in multiset(Sort(s[1..], le)) by {
        assert s[0] !in s[1..];
      }
      InsertDistinct(s[0], Sort(s[1..], le), le);
    }
  }

  /** Elements that `le` cannot tell apart appear in increasing `rank`. */
  predicate StableBy<T>(s: seq<T>, le: (T, T) -> bool, rank: T -> int)
  {
    forall i, j :: 0 <= i < j < |s| && le(s[i], s[j]) && le(s[j], s[i]) ==> rank(s[i]) < rank(s[j])
  }

  /** Inserting `x` ahead of every element it ties with keeps ties in rank order. */
  lemma {:induction false} InsertStable<T>(x: T, s: seq<T>, le: (T, T) -> bool, rank: T -> int)
    requires StableBy(s, le, rank)
    requires forall y :: y in s && le(x, y) && le(y, x) ==> rank(x) < rank(y)
    ensures StableBy(Insert(x, s, le), le, rank)
    decreases |s|
  {
    if s == [] || le(x, s[0]) {
      PrependStable(x, s, le, rank);
    } else {
      var tail := s[1..];
      assert StableBy(tail, le, rank) by {
        assert forall j :: 0 <= j < |tail| ==> tail[j] == s[j + 1];
      }
      InsertStable(x, tail, le, rank);
      HeadRanksFirst(x, s, le, rank);
      PrependStable(s[0], Insert(x, tail, le), le, rank);
      assert Insert(x, s, le) == [s[0]] + Insert(x, tail, le);
    }
  }

  /** Putting `x` in front keeps ties in rank order when `x` ranks below
      every element it ties with. */
  lemma PrependStable<T>(x: T, s: seq<T>, le: (T, T) -> bool, rank: T -> int)
    requires StableBy(s, le, rank)
    requires forall y :: y in s && le(x, y) && le(y, x) ==> rank(x) < rank(y)
    ensures StableBy([x] + s, le, rank)
  {
    var r := [x] + s;
    forall i, j | 0 <= i < j < |r| && le(r[i], r[j]) && le(r[j], r[i]) ensures rank(r[i]) < rank(r[j]) {
      if i > 0 {
        assert r[i] == s[i - 1] && r[j] == s[j - 1];
      } else {
        assert r[j] in s;
      }
    }
  }

  /** When `x` goes behind the head of `s`, every element the head ties with
      after it came from the rest of `s`, so it ranks above the head. */
  lemma HeadRanksFirst<T>(x: T, s: seq<T>, le: (T, T) -> bool, rank: T -> int)
    requires s != [] && !le(x, s[0])
    requires StableBy(s, le, rank)
    ensures forall y :: y in Insert(x, s[1..], le) && le(s[0], y) && le(y, s[0]) ==> rank(s[0]) < rank(y)
  {
    var tail := s[1..];
    var u := Insert(x, tail, le);
    forall y | y in u && le(s[0], y) && le(y, s[0]) ensures rank(s[0]) < rank(y) {
      assert y in multiset(u);
      if y != x {
        var m :| 0 <= m < |tail| && tail[m] == y;
        assert s[m + 1] == y;
      }
    }
  }

  /** Insertion sort is stable: ties keep the order they had in `s`. */
  lemma {:induction false} SortStable<T>(s: seq<T>, le: (T, T) -> bool, rank: T -> int)
    requires StableBy(s, le, rank)
    ensures StableBy(Sort(s, le), le, rank)
    decreases |s|
  {
    if s != [] {
      var tail := s[1..];
      assert StableBy(tail, le, rank) by {
        assert forall j :: 0 <= j < |tail| ==> tail[j] == s[j + 1];
      }
      SortStable(tail, le, rank);
      var sorted := Sort(tail, le);
      forall y | y in sorted && le(s[0], y) && le(y, s[0]) ensures rank(s[0]) < rank(y) {
        assert y in multiset(sorted);
        var m :| 0 <= m < |tail| && tail[m] == y;
        assert s[m + 1] == y;
      }
      InsertStable(s[0], sorted, le, rank);
    }
  }
}
