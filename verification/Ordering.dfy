/** Lexicographic order on strings, and sorting by a comparison. */
module Ordering {

  /** The order of Go strings. */
  predicate LexLess(a: string, b: string) {
    if b == "" then false
    else if a == "" then true
    else a[0] < b[0] || (a[0] == b[0] && LexLess(a[1..], b[1..]))
  }

  lemma {:induction false} ProperPrefixIsLess(a: string, b: string)
    requires a < b
    ensures LexLess(a, b) && !LexLess(b, a)
    decreases |a|
  {
    if a != "" {
      assert a[1..] < b[1..];
      ProperPrefixIsLess(a[1..], b[1..]);
    }
  }

  /** Less is: a proper prefix, or smaller at the first difference. */
  lemma {:induction false} LexLessMeans(a: string, b: string)
    ensures LexLess(a, b) <==> a < b || exists i :: DiffersAt(a, b, i) && a[i] < b[i]
    decreases |a|
  {
    if a != "" && b != "" && a[0] == b[0] {
      LexLessMeans(a[1..], b[1..]);
      assert a == [a[0]] + a[1..] && b == [b[0]] + b[1..];
      if i :| DiffersAt(a[1..], b[1..], i) && a[1..][i] < b[1..][i] {
        assert a[..i + 1] == [a[0]] + a[1..][..i] && b[..i + 1] == [b[0]] + b[1..][..i];
        assert DiffersAt(a, b, i + 1) && a[i + 1] < b[i + 1];
      }
      if i :| DiffersAt(a, b, i) && a[i] < b[i] {
        assert a[1..][..i - 1] == a[..i][1..] && b[1..][..i - 1] == b[..i][1..];
        assert DiffersAt(a[1..], b[1..], i - 1) && a[1..][i - 1] < b[1..][i - 1];
      }
    } else if a != "" && b != "" {
      if a[0] < b[0] {
        assert DiffersAt(a, b, 0);
      }
      if i :| DiffersAt(a, b, i) && a[i] < b[i] {
        assert i > 0 ==> a[..i][0] == b[..i][0];
      }
    }
  }

  lemma {:induction false} SamePrefix(p: string, a: string, b: string)
    ensures LexLess(p + a, p + b) <==> LexLess(a, b)
  {
    if p != "" {
      assert p + a == [p[0]] + (p[1..] + a) && p + b == [p[0]] + (p[1..] + b);
      SamePrefix(p[1..], a, b);
    } else {
      assert p + a == a && p + b == b;
    }
  }

  lemma {:induction false} LessStays(a: string, b: string, x: string, y: string)
    requires |a| == |b| && LexLess(a, b)
    ensures LexLess(a + x, b + y)
  {
    assert a + x == [a[0]] + (a[1..] + x) && b + y == [b[0]] + (b[1..] + y);
    if a[0] == b[0] {
      LessStays(a[1..], b[1..], x, y);
    }
  }

  /** Behind a separator only strings that are equal before it are compared. */
  lemma {:induction false} SeparatorOrders(x: string, y: string, u: string, v: string)
    requires '\0' !in x && '\0' !in y && x != y
    ensures LexLess(x + "\0" + u, y + "\0" + v) <==> LexLess(x, y)
    decreases |x|
  {
    var a, b := x + "\0" + u, y + "\0" + v;
    if x != "" && y != "" {
      assert a[0] == x[0] && b[0] == y[0];
      assert a[1..] == x[1..] + "\0" + u && b[1..] == y[1..] + "\0" + v;
      if x[0] == y[0] {
        assert x == [x[0]] + x[1..] && y == [y[0]] + y[1..];
        SeparatorOrders(x[1..], y[1..], u, v);
      }
    } else if x == "" {
      assert a[0] == '\0' && b[0] == y[0] && y[0] in y;
    } else {
      assert b[0] == '\0' && a[0] == x[0] && x[0] in x;
    }
  }

  /** The strings agree before i and not at i. */
  predicate DiffersAt(a: string, b: string, i: int) {
    0 <= i < |a| && i < |b| && a[..i] == b[..i] && a[i] != b[i]
  }

  function Insert<T>(sorted: seq<T>, x: T, less: (T, T) -> bool): seq<T> {
    if sorted == [] || less(x, sorted[0]) then [x] + sorted
    else [sorted[0]] + Insert(sorted[1..], x, less)
  }

  /** A stable sort. */
  function SortBy<T>(xs: seq<T>, less: (T, T) -> bool): seq<T> {
    if xs == [] then [] else Insert(SortBy(xs[..|xs| - 1], less), xs[|xs| - 1], less)
  }

  lemma {:induction false} InsertKeeps<T>(sorted: seq<T>, x: T, less: (T, T) -> bool)
    ensures multiset(Insert(sorted, x, less)) == multiset(sorted) + multiset{x}
    ensures |Insert(sorted, x, less)| == |sorted| + 1
  {
    if !(sorted == [] || less(x, sorted[0])) {
      InsertKeeps(sorted[1..], x, less);
      assert sorted == [sorted[0]] + sorted[1..];
    }
  }

  /** Sorting keeps every element, as often as it occurs. */
  lemma {:induction false} SortKeeps<T>(xs: seq<T>, less: (T, T) -> bool)
    ensures multiset(SortBy(xs, less)) == multiset(xs)
    ensures |SortBy(xs, less)| == |xs|
  {
    if xs != [] {
      SortKeeps(xs[..|xs| - 1], less);
      InsertKeeps(SortBy(xs[..|xs| - 1], less), xs[|xs| - 1], less);
      assert xs == xs[..|xs| - 1] + [xs[|xs| - 1]];
    }
  }

  lemma SortKeepsMembers<T>(xs: seq<T>, less: (T, T) -> bool)
    ensures forall x :: x in SortBy(xs, less) <==> x in xs
  {
    SortKeeps(xs, less);
    forall x ensures x in SortBy(xs, less) <==> x in xs {
      assert x in SortBy(xs, less) <==> x in multiset(SortBy(xs, less));
      assert x in xs <==> x in multiset(xs);
    }
  }

  /** The last element of two sequences in a row, and what stands before it. */
  lemma LastOfBoth<T>(a: seq<T>, b: seq<T>)
    ensures b == [] ==> a + b == a
    ensures b != [] ==> a + b != [] && (a + b)[|a + b| - 1] == b[|b| - 1]
                        && (a + b)[..|a + b| - 1] == a + b[..|b| - 1]
  {
  }

  ghost predicate Distinct<T(!new)>(xs: seq<T>) {
    forall i, j :: 0 <= i < j < |xs| ==> xs[i] != xs[j]
  }

  ghost predicate RankOrdered<T(!new)>(xs: seq<T>, rank: T -> int) {
    forall i, j :: 0 <= i < j < |xs| ==> rank(xs[i]) <= rank(xs[j])
  }

  /** The comparison never contradicts the rank. */
  ghost predicate FollowsRank<T(!new)>(less: (T, T) -> bool, rank: T -> int) {
    forall x, y :: if less(x, y) then rank(x) <= rank(y) else rank(y) <= rank(x)
  }

  lemma {:induction false} InsertOrders<T(!new)>(sorted: seq<T>, x: T, less: (T, T) -> bool, rank: T -> int)
    requires RankOrdered(sorted, rank) && FollowsRank(less, rank)
    ensures RankOrdered(Insert(sorted, x, less), rank)
    ensures forall y :: y in Insert(sorted, x, less) <==> y in sorted || y == x
  {
    if !(sorted == [] || less(x, sorted[0])) {
      var rest := sorted[1..];
      assert RankOrdered(rest, rank);
      InsertOrders(rest, x, less, rank);
      var r := Insert(rest, x, less);
      forall j | 0 <= j < |r| ensures rank(sorted[0]) <= rank(r[j]) {
        assert r[j] in r;
        assert r[j] in rest || r[j] == x;
      }
      assert sorted == [sorted[0]] + rest;
    }
  }

  /** Sorting by a comparison that follows a rank puts lower ranks first. */
  lemma {:induction false} SortOrders<T(!new)>(xs: seq<T>, less: (T, T) -> bool, rank: T -> int)
    requires FollowsRank(less, rank)
    ensures RankOrdered(SortBy(xs, less), rank)
  {
    if xs != [] {
      SortOrders(xs[..|xs| - 1], less, rank);
      InsertOrders(SortBy(xs[..|xs| - 1], less), xs[|xs| - 1], less, rank);
    }
  }

  lemma DistinctIsCounted<T(!new)>(xs: seq<T>)
    ensures Distinct(xs) <==> forall x :: multiset(xs)[x] <= 1
  {
    if Distinct(xs) {
      DistinctCounts(xs);
    } else {
      var i, j :| 0 <= i < j < |xs| && xs[i] == xs[j];
      assert xs == xs[..i] + [xs[i]] + xs[i + 1..j] + [xs[j]] + xs[j + 1..];
      assert multiset(xs)[xs[i]] >= 2;
    }
  }

  lemma {:induction false} DistinctCounts<T(!new)>(xs: seq<T>)
    requires Distinct(xs)
    ensures forall x :: multiset(xs)[x] <= 1
  {
    if xs != [] {
      var front, last := xs[..|xs| - 1], xs[|xs| - 1];
      DistinctCounts(front);
      assert xs == front + [last];
      assert last !in front;
    }
  }

  /** Sorting distinct elements leaves them distinct. */
  lemma SortKeepsDistinct<T(!new)>(xs: seq<T>, less: (T, T) -> bool)
    requires Distinct(xs)
    ensures Distinct(SortBy(xs, less))
  {
    SortKeeps(xs, less);
    DistinctIsCounted(xs);
    DistinctIsCounted(SortBy(xs, less));
  }

  // ----- sorting by a comparison with no rank

  ghost predicate WeakOrder<T(!new)>(less: (T, T) -> bool) {
    && (forall x, y :: less(x, y) ==> !less(y, x))
    && (forall x, y, z :: !less(y, x) && !less(z, y) ==> !less(z, x))
  }

  ghost predicate Ordered<T(!new)>(xs: seq<T>, less: (T, T) -> bool) {
    forall i, j :: 0 <= i < j < |xs| ==> !less(xs[j], xs[i])
  }

  lemma {:induction false} InsertSorts<T(!new)>(sorted: seq<T>, x: T, less: (T, T) -> bool)
    requires Ordered(sorted, less) && WeakOrder(less)
    ensures Ordered(Insert(sorted, x, less), less)
    ensures forall y :: y in Insert(sorted, x, less) <==> y in sorted || y == x
  {
    if sorted == [] {
    } else if less(x, sorted[0]) {
      forall j | 0 <= j < |sorted| ensures !less(sorted[j], x) {
        assert !less(sorted[0], x) && (j > 0 ==> !less(sorted[j], sorted[0]));
      }
    } else {
      var rest := sorted[1..];
      InsertSorts(rest, x, less);
      var r := Insert(rest, x, less);
      forall j | 0 <= j < |r| ensures !less(r[j], sorted[0]) {
        assert r[j] in r;
        assert r[j] in rest || r[j] == x;
      }
      assert sorted == [sorted[0]] + rest;
    }
  }

  lemma {:induction false} SortSorts<T(!new)>(xs: seq<T>, less: (T, T) -> bool)
    requires WeakOrder(less)
    ensures Ordered(SortBy(xs, less), less)
  {
    if xs != [] {
      SortSorts(xs[..|xs| - 1], less);
      InsertSorts(SortBy(xs[..|xs| - 1], less), xs[|xs| - 1], less);
    }
  }

  lemma {:induction false} LexAsymmetric(a: string, b: string)
    requires LexLess(a, b)
    ensures !LexLess(b, a)
    decreases |a|
  {
    if a != "" && a[0] == b[0] {
      LexAsymmetric(a[1..], b[1..]);
    }
  }

  lemma {:induction false} LexNotLessTransitive(a: string, b: string, c: string)
    requires !LexLess(b, a) && !LexLess(c, b)
    ensures !LexLess(c, a)
    decreases |a|
  {
    if a != "" && c != "" && c[0] == a[0] {
      LexNotLessTransitive(a[1..], b[1..], c[1..]);
    }
  }

  lemma LexIsWeakOrder()
    ensures WeakOrder(LexLess)
  {
    forall x, y | LexLess(x, y) ensures !LexLess(y, x) {
      LexAsymmetric(x, y);
    }
    forall x, y, z | !LexLess(y, x) && !LexLess(z, y) ensures !LexLess(z, x) {
      LexNotLessTransitive(x, y, z);
    }
  }

  ghost predicate StrictlyRanked<T(!new)>(xs: seq<T>, rank: T -> int) {
    forall i, j :: 0 <= i < j < |xs| ==> rank(xs[i]) < rank(xs[j])
  }

  lemma LastIsHighest<T(!new)>(a: seq<T>, rank: T -> int, x: T)
    requires StrictlyRanked(a, rank) && x in a
    ensures rank(x) <= rank(a[|a| - 1]) && (rank(x) == rank(a[|a| - 1]) ==> x == a[|a| - 1])
    ensures x in a[..|a| - 1] <==> x != a[|a| - 1]
  {
  }

  /** A strictly ranked sequence is determined by its elements. */
  lemma {:induction false} StrictlyRankedIsUnique<T(!new)>(a: seq<T>, b: seq<T>, rank: T -> int)
    requires StrictlyRanked(a, rank) && StrictlyRanked(b, rank)
    requires forall x :: x in a <==> x in b
    ensures a == b
    decreases |a|
  {
    assert b != [] ==> b[0] in a;
    if a != [] {
      assert a[0] in b;
      var x, y := a[|a| - 1], b[|b| - 1];
      LastIsHighest(a, rank, y);
      LastIsHighest(b, rank, x);
      var a', b' := a[..|a| - 1], b[..|b| - 1];
      forall z ensures z in a' <==> z in b' {
        if z in a {
          LastIsHighest(a, rank, z);
          LastIsHighest(b, rank, z);
        } else {
          assert z in a' ==> z in a;
          assert z in b' ==> z in b;
        }
      }
      StrictlyRankedIsUnique(a', b', rank);
      assert a == a' + [x] && b == b' + [y];
    }
  }
}
