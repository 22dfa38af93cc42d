/** Dividing bytes among overlapping components: children are charged before their owners. */
module ByteAccounting {
  import opened PathKeys
  import opened CleanupTargets
  import opened SnapshotForest

  datatype Decision = Selected | Reviewable | Protected | Skipped

  datatype Relation = Owner | Exact | Nested | Ancestor

  /** One line of evidence: an item, with the rest of its identity (category, tool and id). */
  datatype Evidence = Evidence(kind: string, item: Item)

  datatype Row = Row(evidence: Evidence, relation: Relation, sortKey: string)

  datatype Component = Component(key: PathKey, owner: Item, decision: Decision, bytes: int, rows: seq<Row>)

  // ----- allocations

  /** The containment forest of the components with their sizes. */
  datatype Tree = Tree(depths: seq<nat>, parents: seq<int>, children: seq<seq<int>>, sizes: seq<int>)

  ghost predicate IsTree(t: Tree) {
    IsForest(t.depths, t.parents, t.children) && |t.sizes| == |t.depths|
  }

  function NonNegative(n: int): int {
    if n < 0 then 0 else n
  }

  function Least(a: int, b: int): int {
    if a < b then a else b
  }

  ghost function Subtree(t: Tree, i: int): set<int>
    requires IsTree(t)
  {
    Under(t.depths, t.parents, i)
  }

  /** The subtrees of the first k children of i. */
  ghost function FirstSubtrees(t: Tree, i: int, k: int): set<int>
    requires IsTree(t) && 0 <= i < |t.children|
  {
    set x, j | 0 <= x < |t.parents| && 0 <= j < k && j < |t.children[i]|
      && IsUnder(t.depths, t.parents, x, t.children[i][j]) :: x
  }

  /** Each child's subtree gets its size, as far as what its elder siblings left of the parent's total goes. */
  ghost predicate IsGreedy(t: Tree, bytes: seq<int>, i: int, total: int, k: int)
    requires IsTree(t) && 0 <= i < |t.children|
  {
    forall j :: 0 <= j < k && j < |t.children[i]| ==>
      SumAt(bytes, Subtree(t, t.children[i][j])) == GreedyShare(t, bytes, i, total, j)
  }

  ghost function GreedyShare(t: Tree, bytes: seq<int>, i: int, total: int, j: int): int
    requires IsTree(t) && 0 <= i < |t.children| && 0 <= j < |t.children[i]|
  {
    var c := t.children[i][j];
    Least(NonNegative(if 0 <= c < |t.sizes| then t.sizes[c] else 0), total - SumAt(bytes, FirstSubtrees(t, i, j)))
  }

  /** The component's bytes are within its size, and its subtree's total was shared out greedily. */
  ghost predicate IsSettled(t: Tree, bytes: seq<int>, i: int)
    requires IsTree(t)
  {
    && 0 <= i < |bytes| == |t.sizes| && 0 <= bytes[i] <= NonNegative(t.sizes[i])
    && IsGreedy(t, bytes, i, SumAt(bytes, Subtree(t, i)), |t.children[i]|)
  }

  ghost predicate AreSettled(t: Tree, bytes: seq<int>, at: set<int>)
    requires IsTree(t)
  {
    forall i :: i in at ==> IsSettled(t, bytes, i)
  }

  ghost predicate AgreeOn(v: seq<int>, w: seq<int>, at: set<int>) {
    |v| == |w| && forall i :: 0 <= i < |v| && i in at ==> v[i] == w[i]
  }

  // ----- subtrees

  lemma ChildHasParent(t: Tree, i: int, k: int)
    requires IsTree(t) && 0 <= i < |t.children| && 0 <= k < |t.children[i]|
    ensures 0 <= t.children[i][k] < |t.parents| && t.parents[t.children[i][k]] == i
    ensures t.depths[i] < t.depths[t.children[i][k]]
  {
    var c := t.children[i][k];
    assert c in t.children[i];
  }

  lemma SubtreesOfChildren(t: Tree, i: int, k: int)
    requires IsTree(t) && 0 <= i < |t.children| && 0 <= k < |t.children[i]|
    ensures FirstSubtrees(t, i, k + 1) == FirstSubtrees(t, i, k) + Subtree(t, t.children[i][k])
    ensures FirstSubtrees(t, i, k) !! Subtree(t, t.children[i][k])
    ensures i !in Subtree(t, t.children[i][k]) && Subtree(t, t.children[i][k]) <= Subtree(t, i)
    ensures 0 <= t.children[i][k] < |t.parents|
  {
    var c := t.children[i][k];
    ChildHasParent(t, i, k);
    forall x | x in FirstSubtrees(t, i, k + 1) ensures x in FirstSubtrees(t, i, k) + Subtree(t, c) {
      var j :| 0 <= j < k + 1 && j < |t.children[i]| && IsUnder(t.depths, t.parents, x, t.children[i][j]);
      assert j < k ==> x in FirstSubtrees(t, i, k);
    }
    forall x | x in Subtree(t, c) ensures x in Subtree(t, i) && x != i && x !in FirstSubtrees(t, i, k) {
      assert IsUnder(t.depths, t.parents, c, i);
      UnderIsTransitive(t.depths, t.parents, x, c, i);
      UnderIsDeeper(t.depths, t.parents, x, c);
      var only := UnderOneChild(t.depths, t.parents, x, i);
      if j :| 0 <= j < k && IsUnder(t.depths, t.parents, x, t.children[i][j]) {
        ChildHasParent(t, i, j);
      }
    }
  }

  lemma SubtreeIsChildren(t: Tree, i: int)
    requires IsTree(t) && 0 <= i < |t.children|
    ensures Subtree(t, i) == FirstSubtrees(t, i, |t.children[i]|) + {i} && i !in FirstSubtrees(t, i, |t.children[i]|)
  {
    forall x | x in Subtree(t, i) && x != i ensures x in FirstSubtrees(t, i, |t.children[i]|) {
      var c := UnderOneChild(t.depths, t.parents, x, i);
      assert c in t.children[i];
      var j :| 0 <= j < |t.children[i]| && t.children[i][j] == c;
    }
    forall x | x in FirstSubtrees(t, i, |t.children[i]|) ensures x in Subtree(t, i) && x != i {
      var j :| 0 <= j < |t.children[i]| && IsUnder(t.depths, t.parents, x, t.children[i][j]);
      SubtreesOfChildren(t, i, j);
      assert x in Subtree(t, t.children[i][j]);
    }
  }

  lemma SubtreeIsClosed(t: Tree, i: int, x: int)
    requires IsTree(t) && 0 <= i < |t.children| && x in Subtree(t, i)
    ensures Subtree(t, x) <= Subtree(t, i)
  {
    forall y | y in Subtree(t, x) ensures y in Subtree(t, i) {
      UnderIsTransitive(t.depths, t.parents, y, x, i);
    }
  }

  lemma FirstSubtreesAreInside(t: Tree, i: int, k: int)
    requires IsTree(t) && 0 <= i < |t.children|
    ensures FirstSubtrees(t, i, k) <= Subtree(t, i)
  {
    SubtreeIsChildren(t, i);
  }

  /** What a component is given depends on its subtree only. */
  lemma SettledUnchanged(t: Tree, v: seq<int>, w: seq<int>, i: int)
    requires IsTree(t) && 0 <= i < |t.children| && AgreeOn(v, w, Subtree(t, i)) && IsSettled(t, v, i)
    ensures IsSettled(t, w, i)
  {
    SumUnchanged(v, w, Subtree(t, i));
    SubtreeIsChildren(t, i);
    assert i in Subtree(t, i);
    var total := SumAt(v, Subtree(t, i));
    forall j | 0 <= j < |t.children[i]|
      ensures SumAt(w, Subtree(t, t.children[i][j])) == GreedyShare(t, w, i, total, j)
    {
      SubtreesOfChildren(t, i, j);
      FirstSubtreesAreInside(t, i, j);
      SumUnchanged(v, w, Subtree(t, t.children[i][j]));
      SumUnchanged(v, w, FirstSubtrees(t, i, j));
      assert SumAt(v, Subtree(t, t.children[i][j])) == GreedyShare(t, v, i, total, j);
    }
  }

  lemma SettledSetUnchanged(t: Tree, v: seq<int>, w: seq<int>, at: set<int>)
    requires IsTree(t) && AreSettled(t, v, at) && AgreeOn(v, w, at)
    requires forall i :: i in at ==> 0 <= i < |t.children| && Subtree(t, i) <= at
    ensures AreSettled(t, w, at)
  {
    forall i | i in at ensures IsSettled(t, w, i) {
      SettledUnchanged(t, v, w, i);
    }
  }

  lemma FirstSubtreesAreClosed(t: Tree, i: int, k: int)
    requires IsTree(t) && 0 <= i < |t.children| && 0 <= k <= |t.children[i]|
    ensures forall x :: x in FirstSubtrees(t, i, k) ==> 0 <= x < |t.children| && Subtree(t, x) <= FirstSubtrees(t, i, k)
  {
    forall x | x in FirstSubtrees(t, i, k) ensures 0 <= x < |t.children| && Subtree(t, x) <= FirstSubtrees(t, i, k) {
      var j :| 0 <= j < k && IsUnder(t.depths, t.parents, x, t.children[i][j]);
      ChildHasParent(t, i, j);
      SubtreeIsClosed(t, t.children[i][j], x);
      forall y | y in Subtree(t, x) ensures y in FirstSubtrees(t, i, k) {
        assert y in Subtree(t, t.children[i][j]);
      }
    }
  }

  // ----- allocating

  function BytesOf(cs: seq<Component>): (r: seq<int>)
    ensures |r| == |cs|
  {
    seq(|cs|, i requires 0 <= i < |cs| => cs[i].bytes)
  }

  ghost predicate SameButBytes(now: seq<Component>, was: seq<Component>) {
    |now| == |was| && forall i :: 0 <= i < |now| ==> now[i].(bytes := was[i].bytes) == was[i]
  }

  ghost predicate HasSizes(cs: seq<Component>, t: Tree) {
    |cs| == |t.sizes| && forall i :: 0 <= i < |cs| ==> cs[i].owner.size == t.sizes[i]
  }

  /** The first k children of i have been allocated from its budget. */
  ghost predicate ChildrenDone(t: Tree, bytes: seq<int>, i: int, budget: int, k: int)
    requires IsTree(t) && 0 <= i < |t.children|
  {
    && AreSettled(t, bytes, FirstSubtrees(t, i, k)) && IsGreedy(t, bytes, i, budget, k)
    && 0 <= SumAt(bytes, FirstSubtrees(t, i, k)) <= budget
  }

  lemma NoChildDone(t: Tree, bytes: seq<int>, i: int, budget: int)
    requires IsTree(t) && 0 <= i < |t.children| && 0 <= budget
    ensures ChildrenDone(t, bytes, i, budget, 0) && FirstSubtrees(t, i, 0) == {}
            && SumAt(bytes, FirstSubtrees(t, i, 0)) == 0
  {
    assert FirstSubtrees(t, i, 0) == {};
    SumOfNone(bytes);
  }

  lemma ChildDone(t: Tree, was: seq<int>, now: seq<int>, i: int, budget: int, k: int, given: int)
    requires IsTree(t) && 0 <= i < |t.children| && 0 <= k < |t.children[i]| && |was| == |now| == |t.sizes|
    requires ChildrenDone(t, was, i, budget, k)
    requires var c := t.children[i][k];
             && (forall x :: 0 <= x < |was| && x !in Subtree(t, c) ==> now[x] == was[x])
             && SumAt(now, Subtree(t, c)) == given && AreSettled(t, now, Subtree(t, c))
             && 0 <= c < |t.sizes| && given ==
                Least(NonNegative(t.sizes[c]), budget - SumAt(was, FirstSubtrees(t, i, k)))
    ensures ChildrenDone(t, now, i, budget, k + 1)
    ensures SumAt(now, FirstSubtrees(t, i, k + 1)) == SumAt(was, FirstSubtrees(t, i, k)) + given
  {
    hide AreSettled, IsUnder;
    var c, before := t.children[i][k], FirstSubtrees(t, i, k);
    SubtreesOfChildren(t, i, k);
    FirstSubtreesAreClosed(t, i, k);
    hide FirstSubtrees, Subtree;
    assert AgreeOn(was, now, before);
    SettledSetUnchanged(t, was, now, before);
    JoinSettled(t, now, before, Subtree(t, c));
    SumUnchanged(was, now, before);
    SumOfUnion(now, before, Subtree(t, c));
    GreedyUnchanged(t, was, now, i, budget, k);
    assert GreedyShare(t, now, i, budget, k) == given;
  }

  lemma JoinSettled(t: Tree, bytes: seq<int>, a: set<int>, b: set<int>)
    requires IsTree(t) && AreSettled(t, bytes, a) && AreSettled(t, bytes, b)
    ensures AreSettled(t, bytes, a + b)
  {
    hide IsSettled;
  }

  lemma GreedyUnchanged(t: Tree, was: seq<int>, now: seq<int>, i: int, total: int, k: int)
    requires IsTree(t) && 0 <= i < |t.children| && 0 <= k <= |t.children[i]|
    requires IsGreedy(t, was, i, total, k) && AgreeOn(was, now, FirstSubtrees(t, i, k))
    ensures IsGreedy(t, now, i, total, k)
  {
    forall j | 0 <= j < k ensures SumAt(now, Subtree(t, t.children[i][j])) == GreedyShare(t, now, i, total, j) {
      forall x | x in Subtree(t, t.children[i][j]) || x in FirstSubtrees(t, i, j) ensures x in FirstSubtrees(t, i, k) {
      }
      SumUnchanged(was, now, Subtree(t, t.children[i][j]));
      SumUnchanged(was, now, FirstSubtrees(t, i, j));
      assert SumAt(was, Subtree(t, t.children[i][j])) == GreedyShare(t, was, i, total, j);
    }
  }

  /** Once its children are done, what is left is the component's own. */
  lemma OwnShare(t: Tree, was: seq<int>, now: seq<int>, i: int, budget: int)
    requires IsTree(t) && 0 <= i < |t.children| && |was| == |t.sizes|
    requires ChildrenDone(t, was, i, budget, |t.children[i]|) && budget <= NonNegative(t.sizes[i])
    requires now == was[i := budget - SumAt(was, FirstSubtrees(t, i, |t.children[i]|))]
    ensures SumAt(now, Subtree(t, i)) == budget && AreSettled(t, now, Subtree(t, i))
  {
    hide AreSettled, IsUnder;
    var n := |t.children[i]|;
    var below := FirstSubtrees(t, i, n);
    SubtreeIsChildren(t, i);
    FirstSubtreesAreClosed(t, i, n);
    hide FirstSubtrees, Subtree;
    SettledSetUnchanged(t, was, now, below);
    SumUnchanged(was, now, below);
    SumOfUnion(now, below, {i});
    SumOfOne(now, i);
    GreedyUnchanged(t, was, now, i, budget, n);
    SettledAlone(t, now, i);
    JoinSettled(t, now, below, {i});
  }

  lemma SettledAlone(t: Tree, bytes: seq<int>, i: int)
    requires IsTree(t) && IsSettled(t, bytes, i)
    ensures AreSettled(t, bytes, {i})
  {
    hide IsSettled;
  }

  lemma TreeLengths(t: Tree)
    requires IsTree(t)
    ensures |t.parents| == |t.children| == |t.depths| == |t.sizes|
    ensures forall i :: 0 <= i < |t.parents| ==> -1 <= t.parents[i] < |t.parents|
  {
  }

  /** The component's subtree is given the budget, as far as the component's size goes; nothing else changes. */
  method Allocate(components: array<Component>, children: seq<seq<int>>, index: int, given: int, ghost t: Tree,
                  ghost bound: nat)
    requires IsTree(t) && children == t.children && HasSizes(components[..], t) && 0 <= index < |children|
    requires forall i :: 0 <= i < |t.depths| ==> t.depths[i] < bound
    modifies components
    ensures SameButBytes(components[..], old(components[..]))
    ensures forall i :: 0 <= i < components.Length && i !in Subtree(t, index) ==> components[i] == old(components[i])
    ensures AreSettled(t, BytesOf(components[..]), Subtree(t, index))
    ensures SumAt(BytesOf(components[..]), Subtree(t, index)) == Least(NonNegative(given), NonNegative(t.sizes[index]))
    decreases bound - t.depths[index]
  {
    hide AreSettled, IsSettled, IsGreedy, FirstSubtrees, Subtree, SumAt, ChildrenDone, IsForest;
    TreeLengths(t);
    var budget := NonNegative(given);
    var ownerBytes := NonNegative(components[index].owner.size);
    if budget > ownerBytes {
      budget := ownerBytes;
    }
    var remaining := budget;
    NoChildDone(t, BytesOf(components[..]), index, budget);
    for k := 0 to |children[index]|
      invariant SameButBytes(components[..], old(components[..])) && HasSizes(components[..], t)
      invariant forall i :: 0 <= i < components.Length && i !in FirstSubtrees(t, index, k) ==>
                  components[i] == old(components[i])
      invariant ChildrenDone(t, BytesOf(components[..]), index, budget, k)
      invariant remaining == budget - SumAt(BytesOf(components[..]), FirstSubtrees(t, index, k)) && 0 <= remaining
    {
      var child := children[index][k];
      ChildHasParent(t, index, k);
      SubtreesOfChildren(t, index, k);
      var childBudget := NonNegative(components[child].owner.size);
      if childBudget > remaining {
        childBudget := remaining;
      }
      ghost var was := BytesOf(components[..]);
      Allocate(components, children, child, childBudget, t, bound);
      assert forall x :: 0 <= x < |was| && x !in Subtree(t, child) ==> BytesOf(components[..])[x] == was[x];
      ChildDone(t, was, BytesOf(components[..]), index, budget, k, childBudget);
      ChildrenDoneBounds(t, BytesOf(components[..]), index, budget, k + 1);
      remaining := remaining - childBudget;
    }
    ghost var was := BytesOf(components[..]);
    components[index] := components[index].(bytes := remaining);
    assert BytesOf(components[..]) == was[index := remaining];
    OwnShare(t, was, BytesOf(components[..]), index, budget);
    SubtreeIsChildren(t, index);
  }

  lemma ChildrenDoneBounds(t: Tree, bytes: seq<int>, i: int, budget: int, k: int)
    requires IsTree(t) && 0 <= i < |t.children| && ChildrenDone(t, bytes, i, budget, k)
    ensures 0 <= SumAt(bytes, FirstSubtrees(t, i, k)) <= budget
  {
  }

  // ----- the forest of the components

  /** p is the deepest component that contains i, the first of equally deep ones; minus one when none does. */
  ghost predicate IsParent(cs: seq<Component>, i: int, p: int, n: int)
    requires 0 <= i < |cs| && n <= |cs|
  {
    && -1 <= p < n
    && (p >= 0 ==> Contains(cs[p].key, cs[i].key))
    && (forall q :: 0 <= q < n && Contains(cs[q].key, cs[i].key) ==>
          p >= 0 && Depth(cs[q].key) <= Depth(cs[p].key) && (q < p ==> Depth(cs[q].key) < Depth(cs[p].key)))
  }

  ghost predicate IsTreeOf(t: Tree, cs: seq<Component>) {
    && IsTree(t) && HasSizes(cs, t)
    && forall i :: 0 <= i < |cs| ==> t.depths[i] == Depth(cs[i].key) && IsParent(cs, i, t.parents[i], |cs|)
  }

  method FindParent(components: array<Component>, child: int) returns (parent: int)
    requires 0 <= child < components.Length
    ensures IsParent(components[..], child, parent, components.Length)
  {
    parent := -1;
    var parentDepth: int := -1;
    for candidate := 0 to components.Length
      invariant IsParent(components[..], child, parent, candidate)
      invariant parentDepth == if parent < 0 then -1 else Depth(components[parent].key)
    {
      if candidate == child || !Contains(components[candidate].key, components[child].key) {
        continue;
      }
      var depth := Depth(components[candidate].key);
      if depth > parentDepth {
        parent := candidate;
        parentDepth := depth;
      }
    }
  }

  /** The children lists after the first n components have been attached. */
  ghost predicate AreChildren(parents: seq<int>, children: seq<seq<int>>, n: int) {
    && (forall p, c {:trigger c in children[p]} :: 0 <= p < |children| ==>
          (c in children[p] <==> 0 <= c < n && c < |parents| && parents[c] == p))
    && (forall p, j, k :: 0 <= p < |children| && 0 <= j < k < |children[p]| ==> children[p][j] != children[p][k])
  }

  lemma AttachChild(parents: seq<int>, children: seq<seq<int>>, c: int, p: int)
    requires AreChildren(parents, children, |parents|) && |parents| == c && -1 <= p < |children|
    ensures AreChildren(parents + [p], if p >= 0 then children[p := children[p] + [c]] else children, c + 1)
  {
    var more, after := parents + [p], if p >= 0 then children[p := children[p] + [c]] else children;
    forall q, d | 0 <= q < |after| ensures d in after[q] <==> 0 <= d < c + 1 && d < |more| && more[d] == q {
      assert d in children[q] <==> 0 <= d < c && parents[d] == q;
    }
    forall q, j, k | 0 <= q < |after| && 0 <= j < k < |after[q]| ensures after[q][j] != after[q][k] {
      if q == p && k == |children[p]| {
        assert children[p][j] in children[p];
      }
    }
  }

  method FindForest(components: array<Component>) returns (t: Tree)
    ensures IsTreeOf(t, components[..])
  {
    hide IsParent, AreChildren;
    var parents: seq<int> := [];
    var children: seq<seq<int>> := seq(components.Length, i => []);
    NoChildren(components.Length);
    for child := 0 to components.Length
      invariant |parents| == child && |children| == components.Length && AreChildren(parents, children, child)
      invariant forall i :: 0 <= i < child ==> IsParent(components[..], i, parents[i], components.Length)
    {
      var parent := FindParent(components, child);
      ParentRange(components[..], child, parent);
      AttachChild(parents, children, child, parent);
      parents := parents + [parent];
      if parent >= 0 {
        children := children[parent := children[parent] + [child]];
      }
    }
    t := Tree(
      seq(components.Length, i requires 0 <= i < components.Length reads components => Depth(components[i].key)),
      parents, children,
      seq(components.Length, i requires 0 <= i < components.Length reads components => components[i].owner.size));
    ForestIs(components[..], t);
  }

  lemma ParentRange(cs: seq<Component>, i: int, p: int)
    requires 0 <= i < |cs| && IsParent(cs, i, p, |cs|)
    ensures -1 <= p < |cs| && (p >= 0 ==> Depth(cs[p].key) < Depth(cs[i].key))
  {
  }

  lemma NoChildren(n: nat)
    ensures AreChildren([], seq(n, i => []), 0)
  {
  }

  lemma ForestIs(cs: seq<Component>, t: Tree)
    requires |t.parents| == |t.children| == |t.depths| == |cs| && HasSizes(cs, t)
             && AreChildren(t.parents, t.children, |cs|)
    requires forall i :: 0 <= i < |cs| ==> t.depths[i] == Depth(cs[i].key) && IsParent(cs, i, t.parents[i], |cs|)
    ensures IsTreeOf(t, cs)
  {
    hide IsParent;
    forall i | 0 <= i < |cs|
      ensures -1 <= t.parents[i] < |cs| && (t.parents[i] >= 0 ==> t.depths[t.parents[i]] < t.depths[i])
    {
      ParentRange(cs, i, t.parents[i]);
    }
  }

  // ----- the whole assignment

  ghost predicate IsRoot(t: Tree, r: int) {
    0 <= r < |t.parents| && t.parents[r] == -1
  }

  /** The trees of the roots among the first k components. */
  ghost function FirstTrees(t: Tree, k: int): set<int>
    requires IsTree(t)
  {
    set x, r | 0 <= x < |t.parents| && 0 <= r < k && r < |t.parents| && t.parents[r] == -1
               && IsUnder(t.depths, t.parents, x, r) :: x
  }

  ghost function RootBytes(t: Tree, k: nat): int
    requires IsTree(t) && k <= |t.sizes|
  {
    if k == 0 then 0 else RootBytes(t, k - 1) + if IsRoot(t, k - 1) then NonNegative(t.sizes[k - 1]) else 0
  }

  lemma NextTree(t: Tree, k: int)
    requires IsTree(t) && 0 <= k < |t.parents|
    ensures FirstTrees(t, k + 1) == FirstTrees(t, k) + if IsRoot(t, k) then Subtree(t, k) else {}
    ensures IsRoot(t, k) ==> FirstTrees(t, k) !! Subtree(t, k)
    ensures forall r :: 0 <= r < k && IsRoot(t, r) ==> Subtree(t, r) <= FirstTrees(t, k)
    ensures forall x :: x in FirstTrees(t, k) ==> 0 <= x < |t.children| && Subtree(t, x) <= FirstTrees(t, k)
  {
    var after := FirstTrees(t, k) + if IsRoot(t, k) then Subtree(t, k) else {};
    forall x | x in FirstTrees(t, k + 1) ensures x in after {
      var r :| 0 <= r < k + 1 && r < |t.parents| && t.parents[r] == -1 && IsUnder(t.depths, t.parents, x, r);
      assert r < k ==> x in FirstTrees(t, k);
    }
    forall x | IsRoot(t, k) && x in Subtree(t, k) ensures x !in FirstTrees(t, k) {
      var only := UnderOneRoot(t.depths, t.parents, x);
    }
    forall x | x in FirstTrees(t, k) ensures 0 <= x < |t.children| && Subtree(t, x) <= FirstTrees(t, k) {
      var r :| 0 <= r < k && r < |t.parents| && t.parents[r] == -1 && IsUnder(t.depths, t.parents, x, r);
      SubtreeIsClosed(t, r, x);
      forall y | y in Subtree(t, x) ensures y in FirstTrees(t, k) {
        assert y in Subtree(t, r);
      }
    }
  }

  lemma EveryoneHasARoot(t: Tree)
    requires IsTree(t)
    ensures forall i :: 0 <= i < |t.parents| ==> i in FirstTrees(t, |t.parents|)
  {
    forall i | 0 <= i < |t.parents| ensures i in FirstTrees(t, |t.parents|) {
      var r := UnderOneRoot(t.depths, t.parents, i);
    }
  }

  /** Every component is settled, and every root's tree sums to the root's size. */
  ghost predicate IsAssigned(t: Tree, bytes: seq<int>, k: int)
    requires IsTree(t) && 0 <= k <= |t.sizes|
  {
    && |bytes| == |t.sizes| && AreSettled(t, bytes, FirstTrees(t, k))
    && SumAt(bytes, FirstTrees(t, k)) == RootBytes(t, k)
    && forall r :: 0 <= r < k && IsRoot(t, r) ==> SumAt(bytes, Subtree(t, r)) == NonNegative(t.sizes[r])
  }

  lemma NothingAssigned(t: Tree, bytes: seq<int>)
    requires IsTree(t) && |bytes| == |t.sizes|
    ensures IsAssigned(t, bytes, 0) && FirstTrees(t, 0) == {}
  {
    assert FirstTrees(t, 0) == {};
    SumOfNone(bytes);
  }

  lemma RootAssigned(t: Tree, was: seq<int>, now: seq<int>, k: int)
    requires IsTree(t) && 0 <= k < |t.sizes| && IsAssigned(t, was, k) && |was| == |now|
    requires if IsRoot(t, k)
             then (forall x :: 0 <= x < |was| && x !in Subtree(t, k) ==> now[x] == was[x])
                  && AreSettled(t, now, Subtree(t, k)) && SumAt(now, Subtree(t, k)) == NonNegative(t.sizes[k])
             else now == was
    ensures IsAssigned(t, now, k + 1)
  {
    hide AreSettled, IsUnder;
    TreeLengths(t);
    NextTree(t, k);
    if IsRoot(t, k) {
      hide FirstTrees, Subtree, IsForest;
      var before := FirstTrees(t, k);
      SettledSetUnchanged(t, was, now, before);
      JoinSettled(t, now, before, Subtree(t, k));
      SumUnchanged(was, now, before);
      SumOfUnion(now, before, Subtree(t, k));
      forall r | 0 <= r < k && IsRoot(t, r) ensures SumAt(now, Subtree(t, r)) == NonNegative(t.sizes[r]) {
        SumUnchanged(was, now, Subtree(t, r));
      }
      assert FirstTrees(t, k + 1) == before + Subtree(t, k);
    } else {
      assert FirstTrees(t, k + 1) == FirstTrees(t, k) + {};
      assert FirstTrees(t, k + 1) == FirstTrees(t, k);
    }
  }

  /** Each component gets its share: within its own size, each tree summing to its root's, all to all the roots'. */
  method AssignAccountingBytes(components: array<Component>) returns (t: Tree)
    modifies components
    ensures SameButBytes(components[..], old(components[..]))
    ensures IsTreeOf(t, components[..]) && IsAssigned(t, BytesOf(components[..]), components.Length)
    ensures forall i :: 0 <= i < components.Length ==> IsSettled(t, BytesOf(components[..]), i)
    ensures Sum(BytesOf(components[..])) == RootBytes(t, components.Length)
  {
    hide AreSettled, IsSettled, IsForest, FirstTrees, Subtree, SumAt, IsAssigned, IsParent, RootBytes, IsTreeOf;
    t := FindForest(components);
    TreeOfMeans(t, components[..]);
    ghost var first := components[..];
    ghost var bound := DepthBound(t.depths);
    NothingAssigned(t, BytesOf(components[..]));
    for index := 0 to components.Length
      invariant SameButBytes(components[..], first) && HasSizes(components[..], t)
      invariant IsAssigned(t, BytesOf(components[..]), index)
    {
      ghost var was := BytesOf(components[..]);
      if t.parents[index] < 0 {
        Allocate(components, t.children, index, components[index].owner.size, t, bound);
        assert forall x :: 0 <= x < |was| && x !in Subtree(t, index) ==> BytesOf(components[..])[x] == was[x];
      }
      RootAssigned(t, was, BytesOf(components[..]), index);
    }
    AllAssigned(t, BytesOf(components[..]));
    TreeOfSame(t, first, components[..]);
  }

  lemma TreeOfMeans(t: Tree, cs: seq<Component>)
    requires IsTreeOf(t, cs)
    ensures IsTree(t) && HasSizes(cs, t)
    ensures |t.parents| == |t.children| == |t.depths| == |t.sizes| == |cs|
    ensures forall i :: 0 <= i < |cs| ==> -1 <= t.parents[i] < |cs|
  {
  }

  lemma TreeOfSame(t: Tree, was: seq<Component>, now: seq<Component>)
    requires IsTreeOf(t, was) && SameButBytes(now, was)
    ensures IsTreeOf(t, now)
  {
    forall i | 0 <= i < |now| ensures now[i].key == was[i].key && now[i].owner == was[i].owner {
    }
    forall i | 0 <= i < |now| ensures IsParent(now, i, t.parents[i], |now|) {
      assert IsParent(was, i, t.parents[i], |was|);
    }
  }

  ghost function DepthBound(depths: seq<nat>): (b: nat)
    ensures forall i :: 0 <= i < |depths| ==> depths[i] < b
  {
    if depths == [] then 0
    else
      var b := DepthBound(depths[..|depths| - 1]);
      if depths[|depths| - 1] < b then b else depths[|depths| - 1] + 1
  }

  lemma AllAssigned(t: Tree, bytes: seq<int>)
    requires IsTree(t) && |bytes| == |t.sizes| && IsAssigned(t, bytes, |bytes|)
    ensures forall i :: 0 <= i < |bytes| ==> IsSettled(t, bytes, i)
    ensures Sum(bytes) == RootBytes(t, |bytes|)
  {
    hide IsSettled, IsUnder;
    TreeLengths(t);
    EveryoneHasARoot(t);
    SumOfAll(bytes, FirstTrees(t, |bytes|));
  }
}
