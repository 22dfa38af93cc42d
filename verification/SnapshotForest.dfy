/** Forests given by parent indexes, and sums of numbers over their subtrees. */
module SnapshotForest {

  /** Parents come before their children in depth; children lists hold each child of a node once. */
  ghost predicate IsForest(depths: seq<nat>, parents: seq<int>, children: seq<seq<int>>) {
    && |parents| == |depths| && |children| == |depths|
    && (forall i :: 0 <= i < |parents| ==> -1 <= parents[i] < |parents|)
    && (forall i :: 0 <= i < |parents| && parents[i] >= 0 ==> depths[parents[i]] < depths[i])
    && (forall p, c {:trigger c in children[p]} :: 0 <= p < |children| ==>
        (c in children[p] <==> 0 <= c < |parents| && parents[c] == p))
    && (forall p, j, k :: 0 <= p < |children| && 0 <= j < k < |children[p]| ==> children[p][j] != children[p][k])
  }

  ghost predicate IsParents(depths: seq<nat>, parents: seq<int>) {
    && |parents| == |depths|
    && (forall i :: 0 <= i < |parents| ==> -1 <= parents[i] < |parents|)
    && (forall i :: 0 <= i < |parents| && parents[i] >= 0 ==> depths[parents[i]] < depths[i])
  }

  /** i is the root or a descendant of it. */
  ghost predicate IsUnder(depths: seq<nat>, parents: seq<int>, i: int, root: int)
    requires IsParents(depths, parents) && 0 <= i < |parents|
    decreases depths[i]
  {
    i == root || (parents[i] >= 0 && IsUnder(depths, parents, parents[i], root))
  }

  ghost function Under(depths: seq<nat>, parents: seq<int>, root: int): set<int>
    requires IsParents(depths, parents)
  {
    set i | 0 <= i < |parents| && IsUnder(depths, parents, i, root)
  }

  lemma {:induction false} UnderIsDeeper(depths: seq<nat>, parents: seq<int>, i: int, root: int)
    requires IsParents(depths, parents) && 0 <= i < |parents| && 0 <= root < |parents|
             && IsUnder(depths, parents, i, root)
    ensures i == root || depths[root] < depths[i]
    decreases depths[i]
  {
    if i != root {
      UnderIsDeeper(depths, parents, parents[i], root);
    }
  }

  lemma {:induction false} UnderIsTransitive(depths: seq<nat>, parents: seq<int>, i: int, j: int, root: int)
    requires IsParents(depths, parents) && 0 <= i < |parents| && 0 <= j < |parents|
    requires IsUnder(depths, parents, i, j) && IsUnder(depths, parents, j, root)
    ensures IsUnder(depths, parents, i, root)
    decreases depths[i]
  {
    if i != j {
      UnderIsTransitive(depths, parents, parents[i], j, root);
    }
  }

  /** Below a node, one is below exactly one of its children. */
  lemma {:induction false} UnderOneChild(depths: seq<nat>, parents: seq<int>, i: int, root: int) returns (c: int)
    requires IsParents(depths, parents) && 0 <= i < |parents| && 0 <= root < |parents|
    requires IsUnder(depths, parents, i, root) && i != root
    ensures 0 <= c < |parents| && parents[c] == root && IsUnder(depths, parents, i, c)
    ensures forall d :: 0 <= d < |parents| && parents[d] == root && IsUnder(depths, parents, i, d) ==> d == c
    decreases depths[i]
  {
    if parents[i] == root {
      c := i;
      forall d | 0 <= d < |parents| && parents[d] == root && IsUnder(depths, parents, i, d) ensures d == c {
        if d != i {
          assert IsUnder(depths, parents, root, d);
          UnderIsDeeper(depths, parents, root, d);
        }
      }
    } else {
      c := UnderOneChild(depths, parents, parents[i], root);
      forall d | 0 <= d < |parents| && parents[d] == root && IsUnder(depths, parents, i, d) ensures d == c {
      }
    }
  }

  lemma {:induction false} UnderOneRoot(depths: seq<nat>, parents: seq<int>, i: int) returns (r: int)
    requires IsParents(depths, parents) && 0 <= i < |parents|
    ensures 0 <= r < |parents| && parents[r] == -1 && IsUnder(depths, parents, i, r)
    ensures forall s :: 0 <= s < |parents| && parents[s] == -1 && IsUnder(depths, parents, i, s) ==> s == r
    decreases depths[i]
  {
    if parents[i] == -1 {
      r := i;
    } else {
      r := UnderOneRoot(depths, parents, parents[i]);
    }
  }

  // ----- sums

  /** The sum of the values at the indexes. */
  ghost function SumAt(values: seq<int>, at: set<int>): int {
    if values == [] then 0
    else SumAt(values[..|values| - 1], at) + if |values| - 1 in at then values[|values| - 1] else 0
  }

  lemma {:induction false} SumOfUnion(values: seq<int>, a: set<int>, b: set<int>)
    requires a !! b
    ensures SumAt(values, a + b) == SumAt(values, a) + SumAt(values, b)
  {
    if values != [] {
      SumOfUnion(values[..|values| - 1], a, b);
    }
  }

  lemma {:induction false} SumUnchanged(v: seq<int>, w: seq<int>, at: set<int>)
    requires |v| == |w| && forall i :: 0 <= i < |v| && i in at ==> v[i] == w[i]
    ensures SumAt(v, at) == SumAt(w, at)
  {
    if v != [] {
      SumUnchanged(v[..|v| - 1], w[..|w| - 1], at);
    }
  }

  lemma {:induction false} SumOfOne(values: seq<int>, i: int)
    ensures SumAt(values, {i}) == if 0 <= i < |values| then values[i] else 0
  {
    if values != [] {
      SumOfOne(values[..|values| - 1], i);
    }
  }

  lemma {:induction false} SumOfNone(values: seq<int>)
    ensures SumAt(values, {}) == 0
  {
    if values != [] {
      SumOfNone(values[..|values| - 1]);
    }
  }

  /** The plain sum. */
  ghost function Sum(values: seq<int>): int {
    if values == [] then 0 else Sum(values[..|values| - 1]) + values[|values| - 1]
  }

  lemma {:induction false} SumOfAll(values: seq<int>, at: set<int>)
    requires forall i :: 0 <= i < |values| ==> i in at
    ensures SumAt(values, at) == Sum(values)
  {
    if values != [] {
      SumOfAll(values[..|values| - 1], at);
    }
  }
}
