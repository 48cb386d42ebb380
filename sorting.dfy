/** The query shapes the store answers: "rows that satisfy a condition, in
    store order" (`filter`), "those rows ordered by a key" (`order_by`), and
    the two aggregations the application runs over groups of rows: joining
    the groups end to end (`list.extend`) and adding up per-group counts.
    ORDER BY is modelled as a stable insertion sort: rows whose keys compare
    equal keep the order in which the store holds them. */
module Sorting {

  /** `le` is a total preorder: any two values compare, and comparison chains. */
  ghost predicate TotalPreorder<T(!new)>(le: (T, T) -> bool) {
    && (forall a, b :: le(a, b) || le(b, a))
    && (forall a, b, c :: le(a, b) && le(b, c) ==> le(a, c))
  }

  predicate Sorted<T>(s: seq<T>, le: (T, T) -> bool) {
    forall i, j :: 0 <= i < j < |s| ==> le(s[i], s[j])
  }

  /** The rows of `s` that satisfy `p`, in their original order. */
  function Filter<T(!new)>(s: seq<T>, p: T -> bool): (r: seq<T>)
    ensures |r| <= |s|
    ensures forall x :: x in r <==> x in s && p(x)
    ensures forall i :: 0 <= i < |r| ==> p(r[i])
  {
    if s == [] then []
    else
      var rest := Filter(s[1..], p);
      assert s == [s[0]] + s[1..];
      if p(s[0]) then [s[0]] + rest else rest
  }

  /** Filtering a concatenation filters each part. */
  lemma {:induction false} FilterAppend<T(!new)>(a: seq<T>, b: seq<T>, p: T -> bool)
    ensures Filter(a + b, p) == Filter(a, p) + Filter(b, p)
  {
    if a != [] {
      FilterAppend(a[1..], b, p);
      assert (a + b)[1..] == a[1..] + b;
    } else {
      assert a + b == b;
    }
  }

  /** A filter that every row passes keeps them all; one that none passes keeps none. */
  lemma {:induction false} FilterExtremes<T(!new)>(s: seq<T>, p: T -> bool)
    ensures (forall x :: x in s ==> p(x)) ==> Filter(s, p) == s
    ensures (forall x :: x in s ==> !p(x)) ==> Filter(s, p) == []
  {
    if s != [] {
      FilterExtremes(s[1..], p);
      assert s == [s[0]] + s[1..];
    }
  }

  /** A filter keeps the rows in their order: whatever order `s` is in,
      its filtered rows are in too. */
  lemma {:induction false} FilterSorted<T(!new)>(s: seq<T>, p: T -> bool, le: (T, T) -> bool)
    requires Sorted(s, le)
    ensures Sorted(Filter(s, p), le)
  {
    if s != [] {
      FilterSorted(s[1..], p, le);
      assert forall y :: y in Filter(s[1..], p) ==> le(s[0], y) by {
        forall y | y in Filter(s[1..], p) ensures le(s[0], y) {
          var j :| 0 <= j < |s[1..]| && s[1..][j] == y;
          assert s[j + 1] == y;
        }
      }
    }
  }

  /** Places `x` before the first element it does not come after. */
  function Insert<T(!new)>(x: T, s: seq<T>, le: (T, T) -> bool): (r: seq<T>)
    requires TotalPreorder(le)
    requires Sorted(s, le)
    ensures |r| == |s| + 1
    ensures forall y :: y in r <==> y == x || y in s
    ensures Sorted(r, le)
  {
    if s == [] then [x]
    else if le(x, s[0]) then [x] + s
    else
      var rest := Insert(x, s[1..], le);
      assert s == [s[0]] + s[1..];
      assert forall y :: y in rest ==> le(s[0], y);
      [s[0]] + rest
  }

  /** ORDER BY: a permutation of `s` that is sorted by `le`. */
  function SortBy<T(!new)>(s: seq<T>, le: (T, T) -> bool): (r: seq<T>)
    requires TotalPreorder(le)
    ensures |r| == |s|
    ensures forall x :: x in r <==> x in s
    ensures Sorted(r, le)
  {
    if s == [] then []
    else
      assert s == [s[0]] + s[1..];
      Insert(s[0], SortBy(s[1..], le), le)
  }

  /** Inserting adds exactly one occurrence of `x`. (Kept apart from `Insert`'s
      contract: multiset facts on every unfolding make callers slow.) */
  lemma {:induction false} InsertCounts<T(!new)>(x: T, s: seq<T>, le: (T, T) -> bool)
    requires TotalPreorder(le) && Sorted(s, le)
    ensures multiset(Insert(x, s, le)) == multiset(s) + multiset{x}
  {
    if s != [] && !le(x, s[0]) {
      InsertCounts(x, s[1..], le);
      assert s == [s[0]] + s[1..];
    }
  }

  /** ORDER BY neither drops nor duplicates a row: the result is a permutation. */
  lemma {:induction false} SortByPermutation<T(!new)>(s: seq<T>, le: (T, T) -> bool)
    requires TotalPreorder(le)
    ensures multiset(SortBy(s, le)) == multiset(s)
  {
    if s != [] {
      SortByPermutation(s[1..], le);
      InsertCounts(s[0], SortBy(s[1..], le), le);
      assert s == [s[0]] + s[1..];
    }
  }

  /** No value occurs twice. */
  predicate Distinct<T(==)>(s: seq<T>) {
    forall i, j :: 0 <= i < j < |s| ==> s[i] != s[j]
  }

  lemma {:induction false} DistinctCons<T>(a: T, t: seq<T>)
    ensures Distinct([a] + t) <==> a !in t && Distinct(t)
  {
    var s := [a] + t;
    if Distinct(s) {
      forall j | 0 <= j < |t| ensures t[j] != a {
        assert s[0] != s[j + 1];
      }
      forall i, j | 0 <= i < j < |t| ensures t[i] != t[j] {
        assert s[i + 1] != s[j + 1];
      }
    }
    if a !in t && Distinct(t) {
      forall i, j | 0 <= i < j < |s| ensures s[i] != s[j] {
        if i == 0 {
          assert s[j] == t[j - 1];
        } else {
          assert s[i] == t[i - 1] && s[j] == t[j - 1];
        }
      }
    }
  }

  lemma {:induction false} DistinctAppend<T>(s: seq<T>, x: T)
    requires Distinct(s) && x !in s
    ensures Distinct(s + [x])
  {
    var t := s + [x];
    forall i, j | 0 <= i < j < |t| ensures t[i] != t[j] {
      assert t[i] == s[i];
    }
  }

  lemma {:induction false} InsertDistinct<T(!new)>(x: T, s: seq<T>, le: (T, T) -> bool)
    requires TotalPreorder(le) && Sorted(s, le)
    requires Distinct(s) && x !in s
    ensures Distinct(Insert(x, s, le))
  {
    if s == [] || le(x, s[0]) {
      DistinctCons(x, s);
    } else {
      assert s == [s[0]] + s[1..];
      DistinctCons(s[0], s[1..]);
      InsertDistinct(x, s[1..], le);
      DistinctCons(s[0], Insert(x, s[1..], le));
    }
  }

  /** ORDER BY over rows that are all different gives rows that are all different. */
  lemma {:induction false} SortByDistinct<T(!new)>(s: seq<T>, le: (T, T) -> bool)
    requires TotalPreorder(le) && Distinct(s)
    ensures Distinct(SortBy(s, le))
  {
    if s != [] {
      assert s == [s[0]] + s[1..];
      DistinctCons(s[0], s[1..]);
      SortByDistinct(s[1..], le);
      InsertDistinct(s[0], SortBy(s[1..], le), le);
    }
  }

  /** ORDER BY ... LIMIT n. */
  function SortAndLimit<T(!new)>(s: seq<T>, le: (T, T) -> bool, n: nat): (r: seq<T>)
    requires TotalPreorder(le)
    ensures |r| == if |s| < n then |s| else n
    ensures Sorted(r, le)
    ensures r <= SortBy(s, le)
    ensures forall x :: x in r ==> x in s
  {
    var sorted := SortBy(s, le);
    if |sorted| <= n then sorted else sorted[..n]
  }

  /** A row that LIMIT cut off sorts after every row that was kept. */
  lemma {:induction false} SortAndLimitOmitted<T(!new)>(s: seq<T>, le: (T, T) -> bool, n: nat, x: T)
    requires TotalPreorder(le)
    requires x in s && x !in SortAndLimit(s, le, n)
    ensures forall y :: y in SortAndLimit(s, le, n) ==> le(y, x)
  {
    var sorted := SortBy(s, le);
    var r := SortAndLimit(s, le, n);
    var j :| 0 <= j < |sorted| && sorted[j] == x;
    assert r == sorted[..|r|];
    assert j >= |r|;
    forall y | y in r ensures le(y, x) {
      var i :| 0 <= i < |r| && r[i] == y;
      assert sorted[i] == y;
    }
  }

  /** The groups of `parts` joined end to end, first group first. */
  function Flatten<T>(parts: seq<seq<T>>): seq<T> {
    if parts == [] then [] else Flatten(parts[..|parts| - 1]) + parts[|parts| - 1]
  }

  /** Joining one more group appends it. */
  lemma {:induction false} FlattenPrefix<T>(parts: seq<seq<T>>, i: nat)
    requires i < |parts|
    ensures Flatten(parts[..i + 1]) == Flatten(parts[..i]) + parts[i]
  {
    assert parts[..i + 1][..i] == parts[..i];
  }

  /** An element of the joined groups is an element of one of the groups. */
  lemma {:induction false} FlattenMember<T>(parts: seq<seq<T>>, x: T)
    ensures x in Flatten(parts) <==> exists j :: 0 <= j < |parts| && x in parts[j]
  {
    if parts != [] {
      var init := parts[..|parts| - 1];
      FlattenMember(init, x);
      if x in Flatten(parts) && x !in parts[|parts| - 1] {
        var j :| 0 <= j < |init| && x in init[j];
        assert parts[j] == init[j];
      }
      if exists j :: 0 <= j < |parts| && x in parts[j] {
        var j :| 0 <= j < |parts| && x in parts[j];
        if j < |parts| - 1 {
          assert init[j] == parts[j];
        }
      }
    }
  }

  function Sum(xs: seq<nat>): nat {
    if xs == [] then 0 else Sum(xs[..|xs| - 1]) + xs[|xs| - 1]
  }

  /** Joining groups whose sizes are `counts` gives `Sum(counts)` elements. */
  lemma {:induction false} FlattenLength<T>(parts: seq<seq<T>>, counts: seq<nat>)
    requires |parts| == |counts|
    requires forall j :: 0 <= j < |parts| ==> |parts[j]| == counts[j]
    ensures |Flatten(parts)| == Sum(counts)
  {
    if parts != [] {
      FlattenLength(parts[..|parts| - 1], counts[..|counts| - 1]);
    }
  }

  /** Adding one more count. */
  lemma {:induction false} SumPrefix(xs: seq<nat>, i: nat)
    requires i < |xs|
    ensures Sum(xs[..i + 1]) == Sum(xs[..i]) + xs[i]
  {
    assert xs[..i + 1][..i] == xs[..i];
  }

  /** No group holds more than the total. */
  lemma {:induction false} SumBounds(xs: seq<nat>, j: nat)
    requires j < |xs|
    ensures xs[j] <= Sum(xs)
  {
    if j < |xs| - 1 {
      SumBounds(xs[..|xs| - 1], j);
    }
  }

  /** Filtering rows that are all different keeps them all different. */
  lemma {:induction false} FilterDistinct<T(!new)>(s: seq<T>, p: T -> bool)
    requires Distinct(s)
    ensures Distinct(Filter(s, p))
  {
    if s != [] {
      assert s == [s[0]] + s[1..];
      DistinctCons(s[0], s[1..]);
      FilterDistinct(s[1..], p);
      if p(s[0]) {
        DistinctCons(s[0], Filter(s[1..], p));
      }
    }
  }

  /** Two lists of different rows with no row in common join into one. */
  lemma {:induction false} DistinctConcat<T>(a: seq<T>, b: seq<T>)
    requires Distinct(a) && Distinct(b)
    requires forall x :: x in a ==> x !in b
    ensures Distinct(a + b)
  {
    var t := a + b;
    forall i, j | 0 <= i < j < |t| ensures t[i] != t[j] {
      if j < |a| {
        assert t[i] == a[i] && t[j] == a[j];
      } else if |a| <= i {
        assert t[i] == b[i - |a|] && t[j] == b[j - |a|];
      } else {
        assert t[i] == a[i] && t[j] == b[j - |a|];
        assert a[i] in a;
      }
    }
  }

  /** Groups of different rows, no two groups sharing a row, join into a
      list of different rows. */
  lemma {:induction false} FlattenDistinct<T>(parts: seq<seq<T>>)
    requires forall j :: 0 <= j < |parts| ==> Distinct(parts[j])
    requires forall i, j, x :: 0 <= i < j < |parts| && x in parts[i] ==> x !in parts[j]
    ensures Distinct(Flatten(parts))
  {
    if parts != [] {
      var n := |parts| - 1;
      var init := parts[..n];
      assert forall j :: 0 <= j < n ==> init[j] == parts[j];
      FlattenDistinct(init);
      forall x | x in Flatten(init) ensures x !in parts[n] {
        FlattenMember(init, x);
        var j :| 0 <= j < |init| && x in init[j];
        assert x in parts[j];
      }
      DistinctConcat(Flatten(init), parts[n]);
    }
  }

  /** A list of different rows has as many rows as it has values. */
  lemma {:induction false} DistinctCard<T>(s: seq<T>)
    requires Distinct(s)
    ensures |set x | x in s| == |s|
  {
    if s != [] {
      var t := s[1..];
      assert s == [s[0]] + t;
      DistinctCons(s[0], t);
      DistinctCard(t);
      assert (set x | x in s) == {s[0]} + (set x | x in t);
    }
  }
}
