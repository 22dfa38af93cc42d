/** The division of bytes is the only one of its kind, and the decision totals split it. */
module ByteAccountingTheorems {
  import opened Ordering
  import opened PathKeys
  import opened CleanupTargets
  import opened SnapshotForest
  import opened ByteAccounting

  lemma SameShare(t: Tree, v: seq<int>, w: seq<int>, p: int, total: int, j: int)
    requires IsTree(t) && 0 <= p < |t.children| && 0 <= j < |t.children[p]|
    requires SumAt(v, FirstSubtrees(t, p, j)) == SumAt(w, FirstSubtrees(t, p, j))
    ensures GreedyShare(t, v, p, total, j) == GreedyShare(t, w, p, total, j)
  {
  }

  lemma {:induction false} ElderTotals(t: Tree, v: seq<int>, w: seq<int>, p: int, total: int, k: int)
    requires IsTree(t) && 0 <= p < |t.children| && 0 <= k <= |t.children[p]|
    requires IsGreedy(t, v, p, total, |t.children[p]|) && IsGreedy(t, w, p, total, |t.children[p]|)
    ensures SumAt(v, FirstSubtrees(t, p, k)) == SumAt(w, FirstSubtrees(t, p, k))
    ensures forall j :: 0 <= j < k ==> SumAt(v, Subtree(t, t.children[p][j])) == SumAt(w, Subtree(t, t.children[p][j]))
    decreases k
  {
    if k == 0 {
      assert FirstSubtrees(t, p, 0) == {};
      SumOfNone(v);
      SumOfNone(w);
    } else {
      ElderTotals(t, v, w, p, total, k - 1);
      SubtreesOfChildren(t, p, k - 1);
      hide FirstSubtrees, Subtree, IsForest, SumAt, GreedyShare;
      SameShare(t, v, w, p, total, k - 1);
      var c := t.children[p][k - 1];
      assert SumAt(v, Subtree(t, c)) == GreedyShare(t, v, p, total, k - 1);
      assert SumAt(w, Subtree(t, c)) == GreedyShare(t, w, p, total, k - 1);
      SumOfUnion(v, FirstSubtrees(t, p, k - 1), Subtree(t, c));
      SumOfUnion(w, FirstSubtrees(t, p, k - 1), Subtree(t, c));
    }
  }

  ghost predicate IsWholeAssignment(t: Tree, bytes: seq<int>)
    requires IsTree(t)
  {
    && |bytes| == |t.sizes| && (forall i :: 0 <= i < |bytes| ==> IsSettled(t, bytes, i))
    && forall r :: 0 <= r < |bytes| && IsRoot(t, r) ==> SumAt(bytes, Subtree(t, r)) == NonNegative(t.sizes[r])
  }

  lemma {:induction false} SameTotals(t: Tree, v: seq<int>, w: seq<int>, i: int)
    requires IsTree(t) && IsWholeAssignment(t, v) && IsWholeAssignment(t, w) && 0 <= i < |t.parents|
    ensures SumAt(v, Subtree(t, i)) == SumAt(w, Subtree(t, i))
    decreases t.depths[i]
  {
    hide FirstSubtrees, Subtree;
    var p := t.parents[i];
    if p >= 0 {
      SameTotals(t, v, w, p);
      assert IsSettled(t, v, p) && IsSettled(t, w, p);
      ElderTotals(t, v, w, p, SumAt(v, Subtree(t, p)), |t.children[p]|);
      assert i in t.children[p];
    } else {
      assert IsRoot(t, i);
    }
  }

  /** Sizes and containment determine every component's bytes. */
  lemma AssignmentIsUnique(t: Tree, v: seq<int>, w: seq<int>)
    requires IsTree(t) && IsWholeAssignment(t, v) && IsWholeAssignment(t, w)
    ensures v == w
  {
    hide FirstSubtrees, Subtree;
    forall i | 0 <= i < |v| ensures v[i] == w[i] {
      SameTotals(t, v, w, i);
      assert IsSettled(t, v, i) && IsSettled(t, w, i);
      var below := FirstSubtrees(t, i, |t.children[i]|);
      ElderTotals(t, v, w, i, SumAt(v, Subtree(t, i)), |t.children[i]|);
      SubtreeIsChildren(t, i);
      SumOfUnion(v, below, {i});
      SumOfUnion(w, below, {i});
      SumOfOne(v, i);
      SumOfOne(w, i);
    }
  }

  // ----- the division, read off the sizes

  /** What the first k components contained directly in i measure, negative sizes counting as nothing. */
  ghost function ContainedSizes(t: Tree, i: int, k: int): (n: int)
    requires IsTree(t) && 0 <= i < |t.children| && 0 <= k <= |t.children[i]|
    ensures n >= 0
    decreases k
  {
    if k == 0 then 0
    else
      ChildHasParent(t, i, k - 1);
      ContainedSizes(t, i, k - 1) + NonNegative(t.sizes[t.children[i][k - 1]])
  }

  lemma PlaceAmongSiblings(t: Tree, i: int)
    requires IsTree(t) && 0 <= i < |t.parents| && t.parents[i] >= 0
    ensures exists j :: 0 <= j < |t.children[t.parents[i]]| && t.children[t.parents[i]][j] == i
  {
    assert i in t.children[t.parents[i]];
  }

  /** What a component and all it contains are given together: its size, as far as what its elder siblings'
      sizes leave of their owner's own budget goes. */
  ghost function Budget(t: Tree, i: int): int
    requires IsTree(t) && 0 <= i < |t.parents|
    decreases t.depths[i]
  {
    if t.parents[i] < 0 then NonNegative(t.sizes[i])
    else
      PlaceAmongSiblings(t, i);
      var p := t.parents[i];
      var j :| 0 <= j < |t.children[p]| && t.children[p][j] == i;
      Least(NonNegative(t.sizes[i]), NonNegative(Budget(t, p) - ContainedSizes(t, p, j)))
  }

  /** The elder children of an owner use their sizes up, as far as its total goes. */
  lemma {:induction false} ChildrenUse(t: Tree, bytes: seq<int>, i: int, total: int, k: int)
    requires IsTree(t) && 0 <= i < |t.children| && 0 <= k <= |t.children[i]| && total >= 0
    requires IsGreedy(t, bytes, i, total, |t.children[i]|)
    ensures SumAt(bytes, FirstSubtrees(t, i, k)) == Least(total, ContainedSizes(t, i, k))
    decreases k
  {
    if k == 0 {
      assert FirstSubtrees(t, i, 0) == {};
      SumOfNone(bytes);
    } else {
      ChildrenUse(t, bytes, i, total, k - 1);
      SubtreesOfChildren(t, i, k - 1);
      ChildHasParent(t, i, k - 1);
      hide FirstSubtrees, Subtree, IsForest, SumAt;
      var c := t.children[i][k - 1];
      assert SumAt(bytes, Subtree(t, c)) == GreedyShare(t, bytes, i, total, k - 1);
      SumOfUnion(bytes, FirstSubtrees(t, i, k - 1), Subtree(t, c));
    }
  }

  lemma {:induction false} SumIsNonNegative(values: seq<int>, at: set<int>)
    requires forall i :: 0 <= i < |values| ==> values[i] >= 0
    ensures SumAt(values, at) >= 0
  {
    if values != [] {
      SumIsNonNegative(values[..|values| - 1], at);
    }
  }

  lemma TotalIsNonNegative(t: Tree, bytes: seq<int>, i: int)
    requires IsTree(t) && IsWholeAssignment(t, bytes)
    ensures SumAt(bytes, Subtree(t, i)) >= 0
  {
    hide Subtree;
    forall j | 0 <= j < |bytes| ensures bytes[j] >= 0 {
      assert IsSettled(t, bytes, j);
    }
    SumIsNonNegative(bytes, Subtree(t, i));
  }

  /** A subtree is given its budget. */
  lemma {:induction false} SubtreeGetsItsBudget(t: Tree, bytes: seq<int>, i: int)
    requires IsTree(t) && IsWholeAssignment(t, bytes) && 0 <= i < |t.parents|
    ensures SumAt(bytes, Subtree(t, i)) == Budget(t, i)
    decreases t.depths[i]
  {
    hide FirstSubtrees, Subtree, SumAt;
    var p := t.parents[i];
    if p < 0 {
      assert IsRoot(t, i);
    } else {
      SubtreeGetsItsBudget(t, bytes, p);
      PlaceAmongSiblings(t, i);
      var j :| 0 <= j < |t.children[p]| && t.children[p][j] == i
               && Budget(t, i) == Least(NonNegative(t.sizes[i]), NonNegative(Budget(t, p) - ContainedSizes(t, p, j)));
      assert IsSettled(t, bytes, p);
      TotalIsNonNegative(t, bytes, p);
      ChildrenUse(t, bytes, p, Budget(t, p), j);
      assert SumAt(bytes, Subtree(t, i)) == GreedyShare(t, bytes, p, Budget(t, p), j);
    }
  }

  /** A component keeps what its budget exceeds the sizes of the components directly in it by; one they cover
      keeps exactly nothing. */
  lemma OwnBytesAreTheRest(t: Tree, bytes: seq<int>, i: int)
    requires IsTree(t) && IsWholeAssignment(t, bytes) && 0 <= i < |t.parents|
    ensures bytes[i] == NonNegative(Budget(t, i) - ContainedSizes(t, i, |t.children[i]|))
    ensures bytes[i] == 0 <==> Budget(t, i) <= ContainedSizes(t, i, |t.children[i]|)
    ensures SumAt(bytes, Subtree(t, i)) == Budget(t, i) <= NonNegative(t.sizes[i])
  {
    SubtreeGetsItsBudget(t, bytes, i);
    TotalIsNonNegative(t, bytes, i);
    SubtreeIsChildren(t, i);
    hide FirstSubtrees, Subtree, SumAt;
    assert IsSettled(t, bytes, i);
    ChildrenUse(t, bytes, i, Budget(t, i), |t.children[i]|);
    SumOfUnion(bytes, FirstSubtrees(t, i, |t.children[i]|), {i});
    SumOfOne(bytes, i);
  }

  // ----- totals

  datatype Totals = Totals(physicalTargets: int, physicalBytes: int, visibleRows: int,
                           selected: int, selectedBytes: int, reviewable: int, reviewableBytes: int,
                           guarded: int, protectedBytes: int, skipped: int, skippedBytes: int)

  function BytesDecided(cs: seq<Component>, d: Decision): int {
    if cs == [] then 0
    else
      BytesDecided(cs[..|cs| - 1], d)
      + if cs[|cs| - 1].decision == d then cs[|cs| - 1].bytes else 0
  }

  function CountDecided(cs: seq<Component>, d: Decision): nat {
    if cs == [] then 0 else CountDecided(cs[..|cs| - 1], d) + if cs[|cs| - 1].decision == d then 1 else 0
  }

  function RowCount(cs: seq<Component>): nat {
    if cs == [] then 0 else RowCount(cs[..|cs| - 1]) + |cs[|cs| - 1].rows|
  }

  ghost function TotalsOf(cs: seq<Component>): Totals {
    Totals(|cs|, Sum(BytesOf(cs)), RowCount(cs), CountDecided(cs, Selected), BytesDecided(cs, Selected),
           CountDecided(cs, Reviewable), BytesDecided(cs, Reviewable), CountDecided(cs, Protected),
             BytesDecided(cs, Protected),
           CountDecided(cs, Skipped), BytesDecided(cs, Skipped))
  }

  method TotalsFor(components: seq<Component>) returns (t: Totals)
    ensures t == TotalsOf(components)
  {
    t := Totals(0, 0, 0, 0, 0, 0, 0, 0, 0, 0, 0);
    for i := 0 to |components|
      invariant t == TotalsOf(components[..i])
    {
      var c := components[i];
      assert components[..i + 1][..i] == components[..i];
      assert BytesOf(components[..i + 1])[..i] == BytesOf(components[..i]);
      t := t.(physicalTargets := t.physicalTargets + 1, physicalBytes := t.physicalBytes + c.bytes,
              visibleRows := t.visibleRows + |c.rows|);
      match c.decision {
        case Selected => t := t.(selected := t.selected + 1, selectedBytes := t.selectedBytes + c.bytes);
        case Reviewable => t := t.(reviewable := t.reviewable + 1, reviewableBytes := t.reviewableBytes + c.bytes);
        case Protected => t := t.(guarded := t.guarded + 1, protectedBytes := t.protectedBytes + c.bytes);
        case Skipped => t := t.(skipped := t.skipped + 1, skippedBytes := t.skippedBytes + c.bytes);
      }
    }
    assert components[..|components|] == components;
  }

  /** The four decisions split the targets and the bytes. */
  lemma {:induction false} DecisionsPartition(cs: seq<Component>)
    ensures var t := TotalsOf(cs);
            && t.physicalBytes == t.selectedBytes + t.reviewableBytes + t.protectedBytes + t.skippedBytes
            && t.physicalTargets == t.selected + t.reviewable + t.guarded + t.skipped
  {
    if cs != [] {
      DecisionsPartition(cs[..|cs| - 1]);
      assert BytesOf(cs)[..|cs| - 1] == BytesOf(cs[..|cs| - 1]);
    }
  }

  // ----- the division, read off the paths

  /** Nothing is less than nothing, and anything else is itself. */
  lemma SharesMean(a: int, b: int)
    ensures (a >= 0 ==> NonNegative(a) == a) && (a < 0 ==> NonNegative(a) == 0)
    ensures Least(a, b) <= a && Least(a, b) <= b && (Least(a, b) == a || Least(a, b) == b)
  {
  }

  ghost predicate DistinctKeys(cs: seq<Component>) {
    forall i, j :: 0 <= i < j < |cs| ==> cs[i].key != cs[j].key
  }

  /** The components at or below component i. */
  ghost function Within(cs: seq<Component>, i: int): set<int>
    requires 0 <= i < |cs|
  {
    set x | 0 <= x < |cs| && cs[i].key <= cs[x].key
  }

  lemma {:induction false} UnderIsWithin(t: Tree, cs: seq<Component>, i: int, x: int)
    requires IsTreeOf(t, cs) && 0 <= i < |cs| && 0 <= x < |cs| && IsUnder(t.depths, t.parents, x, i)
    ensures cs[i].key <= cs[x].key
    decreases t.depths[x]
  {
    if x != i {
      var p := t.parents[x];
      UnderIsWithin(t, cs, i, p);
      assert IsParent(cs, x, p, |cs|);
    }
  }

  lemma {:induction false} WithinIsUnder(t: Tree, cs: seq<Component>, i: int, x: int)
    requires IsTreeOf(t, cs) && DistinctKeys(cs) && 0 <= i < |cs| && 0 <= x < |cs| && cs[i].key <= cs[x].key
    ensures IsUnder(t.depths, t.parents, x, i)
    decreases t.depths[x]
  {
    if x != i {
      assert cs[i].key != cs[x].key;
      var p := t.parents[x];
      assert IsParent(cs, x, p, |cs|);
      assert cs[i].key == cs[x].key[..|cs[i].key|] && cs[p].key == cs[x].key[..|cs[p].key|];
      assert cs[i].key <= cs[p].key;
      WithinIsUnder(t, cs, i, p);
    }
  }

  /** A component's subtree is what lies at or below its path. */
  lemma SubtreeIsWithin(t: Tree, cs: seq<Component>, i: int)
    requires IsTreeOf(t, cs) && DistinctKeys(cs) && 0 <= i < |cs|
    ensures Subtree(t, i) == Within(cs, i)
  {
    forall x | 0 <= x < |cs| ensures x in Subtree(t, i) <==> x in Within(cs, i) {
      if x in Subtree(t, i) {
        UnderIsWithin(t, cs, i, x);
      }
      if x in Within(cs, i) {
        WithinIsUnder(t, cs, i, x);
      }
    }
    forall x | x in Subtree(t, i) ensures 0 <= x < |cs| {
    }
  }

  /** What lies at or below an outermost component is shown with as many bytes as the component has; at or below any
      other, with as many at most. */
  lemma PathsGetTheirSizes(t: Tree, cs: seq<Component>, bytes: seq<int>, i: int)
    requires IsTreeOf(t, cs) && DistinctKeys(cs) && IsWholeAssignment(t, bytes) && 0 <= i < |cs|
    ensures (forall q :: 0 <= q < |cs| ==> !Contains(cs[q].key, cs[i].key)) && cs[i].owner.size >= 0 ==>
              SumAt(bytes, Within(cs, i)) == cs[i].owner.size
    ensures cs[i].owner.size >= 0 ==>
              0 <= bytes[i] <= cs[i].owner.size && SumAt(bytes, Within(cs, i)) <= cs[i].owner.size
    ensures cs[i].owner.size < 0 ==> bytes[i] == 0 && SumAt(bytes, Within(cs, i)) == 0
  {
    SubtreeIsWithin(t, cs, i);
    OwnBytesAreTheRest(t, bytes, i);
    TotalIsNonNegative(t, bytes, i);
    assert IsParent(cs, i, t.parents[i], |cs|);
    assert IsSettled(t, bytes, i);
    assert t.sizes[i] == cs[i].owner.size;
    hide Within, Subtree, SumAt, FirstSubtrees, IsForest;
    if forall q :: 0 <= q < |cs| ==> !Contains(cs[q].key, cs[i].key) {
      assert IsRoot(t, i);
    }
  }

  /** Sums are taken over the indexes, each value once. */
  lemma SumsMean(values: seq<int>, at: set<int>, i: int)
    ensures 0 <= i < |values| && i in at ==> SumAt(values, at) == values[i] + SumAt(values, at - {i})
    ensures (forall j :: j in at ==> !(0 <= j < |values|)) ==> SumAt(values, at) == 0
  {
    if 0 <= i < |values| && i in at {
      SumOfUnion(values, {i}, at - {i});
      SumOfOne(values, i);
      assert {i} + (at - {i}) == at;
    }
    if forall j :: j in at ==> !(0 <= j < |values|) {
      NothingCounts(values, at);
    }
  }

  lemma {:induction false} NothingCounts(values: seq<int>, at: set<int>)
    requires forall j :: j in at ==> !(0 <= j < |values|)
    ensures SumAt(values, at) == 0
  {
    if values != [] {
      NothingCounts(values[..|values| - 1], at);
    }
  }

  /** Each component counts with its own bytes and rows, under its own decision. */
  lemma DecisionCounts(c: Component, d: Decision)
    ensures BytesDecided([c], d) == if c.decision == d then c.bytes else 0
    ensures CountDecided([c], d) == if c.decision == d then 1 else 0
    ensures RowCount([c]) == |c.rows|
  {
    assert [c][..0] == [];
  }

  /** The totals add up over components. */
  lemma {:induction false} DecisionSums(a: seq<Component>, b: seq<Component>, d: Decision)
    ensures BytesDecided(a + b, d) == BytesDecided(a, d) + BytesDecided(b, d)
    ensures CountDecided(a + b, d) == CountDecided(a, d) + CountDecided(b, d)
    ensures RowCount(a + b) == RowCount(a) + RowCount(b)
  {
    LastOfBoth(a, b);
    if b != [] {
      DecisionSums(a, b[..|b| - 1], d);
    }
  }
}
