/** The array and set edits `ResourceManager` performs on its records and
    on its selection, as functions on sequences, with what they keep and
    what they change. */
module Edits {

  import opened Records
  import opened Sorting

  /** `s.splice(i, 1)`: removes the element at `i`; an index past the end
      removes nothing. */
  function SpliceOne<T>(s: seq<T>, i: nat): (r: seq<T>)
    ensures i < |s| ==> |r| == |s| - 1
    ensures i < |s| ==> (forall k :: 0 <= k < i ==> r[k] == s[k]) && (forall k :: i <= k < |r| ==> r[k] == s[k + 1])
    ensures i >= |s| ==> r == s
  {
    if i < |s| then s[..i] + s[i + 1..] else s
  }

  /** The elements of `s` whose index is not in `drop`, in their original order. */
  function Retain<T>(s: seq<T>, drop: set<nat>): (r: seq<T>)
    ensures |r| <= |s|
    decreases |s|
  {
    if s == [] then []
    else Retain(s[..|s| - 1], drop) + (if |s| - 1 in drop then [] else [s[|s| - 1]])
  }

  /** The indices below `n` that are not dropped, in increasing order. */
  function Kept(n: nat, drop: set<nat>): (r: seq<nat>)
    ensures forall j :: 0 <= j < |r| ==> r[j] < n && r[j] !in drop
    ensures forall i, j :: 0 <= i < j < |r| ==> r[i] < r[j]
    ensures forall x :: 0 <= x < n && x !in drop ==> x in r
    decreases n
  {
    if n == 0 then []
    else
      var p := Kept(n - 1, drop);
      assert forall x :: 0 <= x < n - 1 && x !in drop ==> x in p;
      p + (if n - 1 in drop then [] else [n - 1])
  }

  /** `Retain` is the subsequence of `s` at the kept indices: its `j`-th
      element is the one at the `j`-th index that is not dropped. */
  lemma {:induction false} RetainOrder<T>(s: seq<T>, drop: set<nat>)
    ensures |Retain(s, drop)| == |Kept(|s|, drop)|
    ensures forall j :: 0 <= j < |Retain(s, drop)| ==> Retain(s, drop)[j] == s[Kept(|s|, drop)[j]]
    decreases |s|
  {
    if s != [] {
      var p := s[..|s| - 1];
      RetainOrder(p, drop);
      var r := Retain(s, drop);
      var rp := Retain(p, drop);
      var kp := Kept(|p|, drop);
      var kn := Kept(|s|, drop);
      if |p| in drop {
        assert r == rp && kn == kp;
        assert forall j :: 0 <= j < |rp| ==> p[kp[j]] == s[kp[j]];
      } else {
        assert r == rp + [s[|p|]] && kn == kp + [|p|];
        forall j | 0 <= j < |r| ensures r[j] == s[kn[j]] {
          if j < |rp| {
            assert r[j] == rp[j] == p[kp[j]];
          }
        }
      }
    }
  }

  /** An element is kept exactly when it sits at some index that is not dropped. */
  lemma {:induction false} RetainMembers<T>(s: seq<T>, drop: set<nat>, x: T)
    ensures x in Retain(s, drop) <==> exists k :: 0 <= k < |s| && k !in drop && s[k] == x
    decreases |s|
  {
    if s != [] {
      var last := |s| - 1;
      var p := s[..last];
      var t := if last in drop then [] else [s[last]];
      RetainMembers(p, drop, x);
      assert Retain(s, drop) == Retain(p, drop) + t;
      if x in Retain(p, drop) {
        var k :| 0 <= k < |p| && k !in drop && p[k] == x;
        assert s[k] == x;
      } else if x in t {
        assert s[last] == x;
      }
      if exists k :: 0 <= k < |s| && k !in drop && s[k] == x {
        var k :| 0 <= k < |s| && k !in drop && s[k] == x;
        if k < last {
          assert p[k] == x;
        } else {
          assert x in t;
        }
      }
    }
  }

  /** Dropping nothing inside `s` keeps all of it. */
  lemma {:induction false} RetainNone<T>(s: seq<T>, drop: set<nat>)
    requires forall x :: x in drop ==> x >= |s|
    ensures Retain(s, drop) == s
    decreases |s|
  {
    if s != [] {
      RetainNone(s[..|s| - 1], drop);
      assert s[..|s| - 1] + [s[|s| - 1]] == s;
    }
  }

  /** When nothing below `n` is dropped, the first `n` elements stay where they were. */
  lemma {:induction false} RetainKeepsPrefix<T>(s: seq<T>, drop: set<nat>, n: nat)
    requires n <= |s|
    requires forall x :: x in drop ==> x >= n
    ensures |Retain(s, drop)| >= n && Retain(s, drop)[..n] == s[..n]
    decreases |s|
  {
    if |s| == n {
      RetainNone(s, drop);
    } else {
      var p := s[..|s| - 1];
      RetainKeepsPrefix(p, drop, n);
      assert p[..n] == s[..n];
      var t := if |s| - 1 in drop then [] else [s[|s| - 1]];
      assert (Retain(p, drop) + t)[..n] == Retain(p, drop)[..n];
    }
  }

  /** An index past the end drops nothing. */
  lemma {:induction false} RetainIgnoresOutOfRange<T>(s: seq<T>, drop: set<nat>, d: nat)
    requires d >= |s|
    ensures Retain(s, drop + {d}) == Retain(s, drop)
    decreases |s|
  {
    if s != [] {
      RetainIgnoresOutOfRange(s[..|s| - 1], drop, d);
    }
  }

  lemma SpliceAppend<T>(x: seq<T>, t: seq<T>, d: nat)
    requires d < |x|
    ensures SpliceOne(x + t, d) == SpliceOne(x, d) + t
  {
    assert (x + t)[..d] == x[..d];
    assert (x + t)[d + 1..] == x[d + 1..] + t;
  }

  /** Splicing out `d` after every larger index has already gone removes
      exactly the element originally at `d`: this is why `bulkDelete` works
      through the selection from the highest index down. */
  lemma {:induction false} RetainDropBelow<T>(s: seq<T>, drop: set<nat>, d: nat)
    requires d < |s|
    requires forall x :: x in drop ==> x > d
    ensures Retain(s, drop + {d}) == SpliceOne(Retain(s, drop), d)
    decreases |s|
  {
    var p := s[..|s| - 1];
    if |s| - 1 == d {
      RetainNone(p, drop);
      RetainNone(p, drop + {d});
      assert Retain(s, drop) == p + [s[d]];
      assert SpliceOne(p + [s[d]], d) == p;
    } else {
      RetainDropBelow(p, drop, d);
      RetainKeepsPrefix(p, drop, d + 1);
      var t := if |s| - 1 in drop then [] else [s[|s| - 1]];
      SpliceAppend(Retain(p, drop), t, d);
    }
  }

  /** One step of `bulkDelete`, whatever the index: splicing at `d`, below
      every index already handled, drops `d` as well. */
  lemma BulkDeleteStep<T>(s: seq<T>, drop: set<nat>, d: nat)
    requires forall x :: x in drop ==> x > d
    ensures SpliceOne(Retain(s, drop), d) == Retain(s, drop + {d})
  {
    if d < |s| {
      RetainDropBelow(s, drop, d);
    } else {
      RetainIgnoresOutOfRange(s, drop, d);
    }
  }

  /** Splicing in ascending order would go wrong: after the first removal the
      second index names the element that used to follow it. */
  lemma AscendingSpliceMisses()
    ensures SpliceOne(SpliceOne([10, 20, 30], 0), 1) == [20]
    ensures Retain([10, 20, 30], {0, 1}) == [30]
  {
    assert SpliceOne([10, 20, 30], 0) == [20, 30];
    assert [10, 20, 30][..2] == [10, 20];
    assert [10, 20][..1] == [10];
    assert [10][..0] == [];
  }

  /** The relation that sorts indices from the highest down: `(a, b) => b - a`. */
  predicate Descending(a: nat, b: nat)
  {
    a >= b
  }

  lemma DescendingIsTotalPreorder()
    ensures TotalPreorder(Descending)
  {
  }

  /** The indices of a sequence's elements, as a set. */
  function Elements(s: seq<nat>): (r: set<nat>)
    ensures forall x :: x in r <==> x in s
  {
    set x | x in s
  }

  /** The first `i` indices of `order`, the ones `bulkDelete` has already spliced. */
  function Handled(order: seq<nat>, i: nat): (r: set<nat>)
    requires i <= |order|
    ensures forall x :: x in r <==> x in order[..i]
  {
    set k | 0 <= k < i :: order[k]
  }

  /** Going one index further adds that index. */
  lemma HandledNext(order: seq<nat>, i: nat)
    requires i < |order|
    ensures Handled(order, i + 1) == Handled(order, i) + {order[i]}
  {
    assert order[..i + 1] == order[..i] + [order[i]];
  }

  /** In a strictly descending order every index already handled lies above the next one. */
  lemma HandledAreHigher(order: seq<nat>, i: nat)
    requires i < |order| && SortedBy(order, Descending) && Distinct(order)
    ensures forall x :: x in Handled(order, i) ==> x > order[i]
  {
    forall x | x in Handled(order, i) ensures x > order[i] {
      var k :| 0 <= k < i && order[k] == x;
      assert Descending(order[k], order[i]) && order[k] != order[i];
    }
  }

  /** Once every index of a rearrangement of `sel` is handled, exactly the
      elements of `sel` are. */
  lemma HandledAll(order: seq<nat>, sel: seq<nat>)
    requires multiset(order) == multiset(sel)
    ensures Handled(order, |order|) == Elements(sel)
  {
    forall x ensures x in Handled(order, |order|) <==> x in sel {
      assert order[..|order|] == order;
      assert x in order <==> x in multiset(order);
    }
  }

  /** Sets the category of each record whose index is in `chosen`. */
  function Recategorize(rs: seq<Resource>, chosen: set<nat>, c: string): (r: seq<Resource>)
    ensures |r| == |rs|
    ensures forall k :: 0 <= k < |rs| ==>
      && r[k].category == (if k in chosen then c else rs[k].category)
      && r[k] == rs[k].(category := r[k].category)
  {
    seq(|rs|, k requires 0 <= k < |rs| => if k in chosen then rs[k].(category := c) else rs[k])
  }

  /** One pass of the `forEach` in `handleBulkChangeCategory`: the record at
      the next selected index gets the category. */
  lemma RecategorizeStep(rs: seq<Resource>, sel: seq<nat>, i: nat, c: string)
    requires i < |sel| && sel[i] < |rs|
    ensures var before := Recategorize(rs, Elements(sel[..i]), c);
      Recategorize(rs, Elements(sel[..i + 1]), c) == before[sel[i] := before[sel[i]].(category := c)]
  {
    assert sel[..i + 1] == sel[..i] + [sel[i]];
  }

  /** Recategorizing in two rounds is the same as once over both sets. */
  lemma RecategorizeTwice(rs: seq<Resource>, a: set<nat>, b: set<nat>, c: string)
    ensures Recategorize(Recategorize(rs, a, c), b, c) == Recategorize(rs, a + b, c)
  {
  }

  /** The length of the longest prefix of `sel` whose indices are below `n`. */
  function InRangePrefix(sel: seq<nat>, n: nat): (k: nat)
    ensures k <= |sel|
    ensures forall j :: 0 <= j < k ==> sel[j] < n
    ensures k < |sel| ==> sel[k] >= n
    decreases |sel|
  {
    if sel == [] || sel[0] >= n then 0 else 1 + InRangePrefix(sel[1..], n)
  }

  /** `Set.prototype.delete` on the selection. */
  function RemoveValue(s: seq<nat>, x: nat): (r: seq<nat>)
    ensures forall y :: y in r <==> y in s && y != x
    ensures Distinct(s) ==> Distinct(r)
    decreases |s|
  {
    if s == [] then []
    else if s[0] == x then RemoveValue(s[1..], x)
    else
      var t := RemoveValue(s[1..], x);
      assert Distinct(s) ==> s[0] !in s[1..] by {
        assert forall j :: 0 <= j < |s[1..]| ==> s[1..][j] == s[j + 1];
      }
      assert forall j :: 0 <= j < |t| ==> t[j] in t;
      [s[0]] + t
  }

  /** Deleting a value the selection does not hold changes nothing. */
  lemma {:induction false} RemoveAbsent(s: seq<nat>, x: nat)
    requires x !in s
    ensures RemoveValue(s, x) == s
    decreases |s|
  {
    if s != [] {
      var tail := s[1..];
      assert x !in tail;
      RemoveAbsent(tail, x);
      assert RemoveValue(s, x) == [s[0]] + tail;
    }
  }

  /** The position of `x` in `s`. */
  function IndexOf(s: seq<nat>, x: nat): (k: nat)
    requires x in s
    ensures k < |s| && s[k] == x
    ensures forall j :: 0 <= j < k ==> s[j] != x
    decreases |s|
  {
    if s[0] == x then 0 else 1 + IndexOf(s[1..], x)
  }

  /** Deleting a value the selection holds cuts it out of its place; the
      other values keep their order. */
  lemma {:induction false} RemoveCutsOut(s: seq<nat>, x: nat)
    requires Distinct(s) && x in s
    ensures RemoveValue(s, x) == s[..IndexOf(s, x)] + s[IndexOf(s, x) + 1..]
    decreases |s|
  {
    var tail := s[1..];
    if s[0] == x {
      assert x !in tail by {
        assert forall j :: 0 <= j < |tail| ==> tail[j] == s[j + 1];
      }
      RemoveAbsent(tail, x);
    } else {
      assert Distinct(tail) by {
        assert forall j :: 0 <= j < |tail| ==> tail[j] == s[j + 1];
      }
      RemoveCutsOut(tail, x);
      var k := IndexOf(tail, x);
      assert IndexOf(s, x) == k + 1;
      assert s[..k + 1] == [s[0]] + tail[..k];
      assert s[k + 2..] == tail[k + 1..];
      assert RemoveValue(s, x) == [s[0]] + RemoveValue(tail, x);
    }
  }

  /** `resources[i].pinned = !resources[i].pinned`. */
  function FlipPinned(rs: seq<Resource>, i: nat): (r: seq<Resource>)
    requires i < |rs|
    ensures |r| == |rs|
    ensures r[i].pinned == !rs[i].pinned && r[i] == rs[i].(pinned := r[i].pinned)
    ensures forall k :: 0 <= k < |rs| && k != i ==> r[k] == rs[k]
  {
    rs[i := rs[i].(pinned := !rs[i].pinned)]
  }

  /** Pinning twice restores the list. */
  lemma FlipPinnedTwice(rs: seq<Resource>, i: nat)
    requires i < |rs|
    ensures FlipPinned(FlipPinned(rs, i), i) == rs
  {
  }
}
