/** The unified cleanup plan: visible rows, exact physical targets, and the components that own their bytes. */
module CleanupPlan {
  import opened Wrappers
  import opened Ordering
  import opened PathKeys
  import opened CleanupTargets

  datatype Selection = Unselected | Selected | Locked

  datatype Relation = Unrelated | Owner | Exact | Nested

  datatype Reason = Policy(code: string, description: string) | ContainsLockedTarget | OverlapsLockedTarget

  /** One canonical path with every discovery row at it. The owner is set when components are built. */
  datatype Target = Target(key: PathKey, owner: Option<PathKey>, item: Item, rowKeys: seq<string>,
                           policy: Selection, selection: Selection)

  /** One visible policy decision; path is both its target's key and its canonical path. */
  datatype Row = Row(key: string, path: PathKey, owner: Option<PathKey>, relation: Relation, item: Item,
                     policy: Selection, selection: Selection, reasons: seq<Reason>, physicalBytes: int)

  datatype Component = Component(key: PathKey, ownerTarget: PathKey, owner: Item, targetKeys: seq<PathKey>,
                                 rowKeys: seq<string>, selection: Selection)

  datatype Plan = Plan(rows: seq<Row>, targets: seq<Target>, components: seq<Component>)

  ghost predicate DistinctKeys(ts: seq<Target>) {
    forall i, j :: 0 <= i < j < |ts| ==> ts[i].key != ts[j].key
  }

  // ----- which target owns which

  /** The paths that claim what lies below them: selected or locked by policy. */
  function Claims(ts: seq<Target>): set<PathKey> {
    set i | 0 <= i < |ts| && ts[i].policy != Unselected :: ts[i].key
  }

  /** The shortest proper prefix of p, from length n on, that is a claim; otherwise p itself. */
  function OwnerFrom(claims: set<PathKey>, p: PathKey, n: nat): PathKey
    requires n <= |p|
    decreases |p| - n
  {
    if n == |p| then p
    else if p[..n] in claims then p[..n]
    else OwnerFrom(claims, p, n + 1)
  }

  function OwnerOf(claims: set<PathKey>, p: PathKey): PathKey {
    OwnerFrom(claims, p, 0)
  }

  lemma {:induction false} OwnerFromIsFirst(claims: set<PathKey>, p: PathKey, n: nat)
    requires n <= |p|
    ensures var o := OwnerFrom(claims, p, n);
            && n <= |o| && o <= p && (o != p ==> o in claims)
            && forall k :: n <= k < |o| ==> p[..k] !in claims
    decreases |p| - n
  {
    if n < |p| && p[..n] !in claims {
      OwnerFromIsFirst(claims, p, n + 1);
    }
  }

  /** The owner of a path is its outermost claiming ancestor, or the path itself when it has none. */
  lemma OwnerIsOutermost(claims: set<PathKey>, p: PathKey)
    ensures var o := OwnerOf(claims, p);
            && (o == p || (Contains(o, p) && o in claims))
            && (forall q :: q in claims && Contains(q, p) ==> o <= q)
            && (forall q :: q in claims ==> !Contains(q, o))
  {
    OwnerFromIsFirst(claims, p, 0);
    var o := OwnerOf(claims, p);
    forall q | q in claims && Contains(q, p) ensures o <= q {
      assert q == p[..|q|];
      assert |o| <= |q|;
      assert o == p[..|o|];
    }
    forall q | q in claims ensures !Contains(q, o) {
      assert |q| < |o| ==> p[..|q|] !in claims;
    }
  }

  /** Only one path can be that. */
  lemma OwnerIsUnique(claims: set<PathKey>, p: PathKey, o: PathKey)
    requires o == p || (Contains(o, p) && o in claims)
    requires forall q :: q in claims ==> !Contains(q, o)
    ensures OwnerOf(claims, p) == o
  {
    OwnerIsOutermost(claims, p);
    var r := OwnerOf(claims, p);
    if r != o && r != p && o != p {
      AncestorsAreComparable(r, o, p);
    }
  }

  /** Owners own themselves. */
  lemma OwnerIsFixed(claims: set<PathKey>, p: PathKey)
    ensures OwnerOf(claims, OwnerOf(claims, p)) == OwnerOf(claims, p)
  {
    OwnerIsOutermost(claims, p);
    OwnerIsUnique(claims, OwnerOf(claims, p), OwnerOf(claims, p));
  }

  /** Any claiming ancestor leads to the same owner. */
  lemma OwnerThroughClaim(claims: set<PathKey>, p: PathKey, q: PathKey)
    requires q in claims && Contains(q, p)
    ensures OwnerOf(claims, p) == OwnerOf(claims, q)
  {
    OwnerIsOutermost(claims, q);
    OwnerIsUnique(claims, p, OwnerOf(claims, q));
  }

  // ----- components

  function Aggregate(current: Selection, next: Selection): Selection {
    if current == Locked || next == Locked then Locked
    else if current == Selected || next == Selected then Selected
    else Unselected
  }

  function NewComponent(owner: PathKey, t: Target): Component {
    Component(owner, t.key, t.item, [], [], Unselected)
  }

  function Absorb(c: Component, t: Target): Component {
    c.(targetKeys := c.targetKeys + [t.key], rowKeys := c.rowKeys + t.rowKeys,
       selection := Aggregate(c.selection, t.policy))
  }

  /** The components of the targets, taken in the given order. */
  function Components(ts: seq<Target>, order: seq<int>): (m: map<PathKey, Component>)
    requires forall k :: 0 <= k < |order| ==> 0 <= order[k] < |ts|
    ensures forall o :: o in m ==> m[o].key == o
  {
    if order == [] then map[]
    else
      var before, t := Components(ts, order[..|order| - 1]), ts[order[|order| - 1]];
      var o := OwnerOf(Claims(ts), t.key);
      before[o := Absorb(if o in before then before[o] else NewComponent(o, t), t)]
  }

  function Indices(n: nat): seq<int> {
    if n == 0 then [] else Indices(n - 1) + [n - 1]
  }

  lemma {:induction false} IndicesAreAll(n: nat)
    ensures |Indices(n)| == n && forall k :: 0 <= k < n ==> Indices(n)[k] == k
  {
    if n > 0 {
      IndicesAreAll(n - 1);
    }
  }

  ghost predicate IsPermutation(order: seq<int>, n: nat) {
    && (forall k :: 0 <= k < |order| ==> 0 <= order[k] < n)
    && (forall i :: 0 <= i < n ==> i in order)
    && Distinct(order)
  }

  ghost predicate ShallowOrdered(order: seq<int>, ts: seq<Target>)
    requires forall k :: 0 <= k < |order| ==> 0 <= order[k] < |ts|
  {
    forall k, l :: 0 <= k < l < |order| ==> Depth(ts[order[k]].key) <= Depth(ts[order[l]].key)
  }

  function KeyAt(ts: seq<Target>, i: int): PathKey {
    if 0 <= i < |ts| then ts[i].key else []
  }

  /** The target indices, shallower keys first and equal depths by spelling. */
  function ShallowOrder(ts: seq<Target>): seq<int> {
    SortBy(Indices(|ts|), (i, j) => ShallowFirst(KeyAt(ts, i), KeyAt(ts, j)))
  }

  lemma ShallowOrderIsPermutation(ts: seq<Target>)
    ensures IsPermutation(ShallowOrder(ts), |ts|) && ShallowOrdered(ShallowOrder(ts), ts)
  {
    var less := (i, j) => ShallowFirst(KeyAt(ts, i), KeyAt(ts, j));
    var rank := (i: int) => Depth(KeyAt(ts, i)) as int;
    var all, s := Indices(|ts|), SortBy(Indices(|ts|), less);
    IndicesAreAll(|ts|);
    SortOrders(all, less, rank);
    SortKeepsMembers(all, less);
    SortKeepsDistinct(all, less);
    forall k | 0 <= k < |s| ensures 0 <= s[k] < |ts| {
      assert s[k] in s;
    }
    forall i | 0 <= i < |ts| ensures i in s {
      assert all[i] == i;
    }
    forall k, l | 0 <= k < l < |s| ensures Depth(ts[s[k]].key) <= Depth(ts[s[l]].key) {
      assert rank(s[k]) <= rank(s[l]);
    }
  }

  // ----- what building the components leaves behind

  function ComponentsOf(ts: seq<Target>): map<PathKey, Component> {
    ShallowOrderIsPermutation(ts);
    Components(ts, ShallowOrder(ts))
  }

  /** The selection of the component that owns a path; every target's owner has one. */
  function SelectionAt(ts: seq<Target>, o: PathKey): Selection {
    if o in ComponentsOf(ts) then ComponentsOf(ts)[o].selection else Unselected
  }

  function OwnedTarget(ts: seq<Target>, t: Target): Target {
    var o := OwnerOf(Claims(ts), t.key);
    t.(owner := Some(o), selection := SelectionAt(ts, o))
  }

  function OwnedTargets(ts: seq<Target>): (r: seq<Target>)
    ensures |r| == |ts|
  {
    seq(|ts|, i requires 0 <= i < |ts| => OwnedTarget(ts, ts[i]))
  }

  function Finished(c: Component): Component {
    c.(targetKeys := SortBy(c.targetKeys, SpellingLess), rowKeys := SortBy(c.rowKeys, LexLess))
  }

  predicate KeySpellingLess(a: Component, b: Component) {
    SpellingLess(a.key, b.key)
  }

  /** One finished component per owner, in the order of their keys' spellings. */
  ghost predicate AreComponents(cs: seq<Component>, ts: seq<Target>) {
    && (forall c :: c in cs <==> c.key in ComponentsOf(ts) && c == Finished(ComponentsOf(ts)[c.key]))
    && (forall i, j :: 0 <= i < j < |cs| ==> cs[i].key != cs[j].key)
    && Ordered(cs, KeySpellingLess)
  }

  /** The row that shows the bytes of a target that owns itself: the first whose item is the representative,
      otherwise the target's first row. */
  function FirstMatch(rows: seq<Row>, t: Target): (key: string) {
    if rows == [] then ""
    else
      var before, row := FirstMatch(rows[..|rows| - 1], t), rows[|rows| - 1];
      if before == "" && row.path == t.key && StableKey(row.item) == StableKey(t.item) then row.key else before
  }

  function OwnerRowKey(rows: seq<Row>, t: Target): string {
    if FirstMatch(rows, t) == "" && t.rowKeys != [] then t.rowKeys[0] else FirstMatch(rows, t)
  }

  /** A hard-locked target of the same component lies below the path. */
  predicate ContainsLocked(ts: seq<Target>, o: PathKey, path: PathKey) {
    exists i :: 0 <= i < |ts| && OwnerOf(Claims(ts), ts[i].key) == o && ts[i].policy == Locked
      && Contains(path, ts[i].key)
  }

  function AppendUnique(reasons: seq<Reason>, reason: Reason): seq<Reason> {
    if reason in reasons then reasons else reasons + [reason]
  }

  function Labelled(row: Row, c: Component, ownerRowKey: string, containsLocked: bool): Row {
    row.(owner := Some(c.key), selection := c.selection,
    relation := if row.key == ownerRowKey then Owner else if row.path == c.key then Exact else Nested,
    physicalBytes := if row.key == ownerRowKey then c.owner.size else row.physicalBytes,
    reasons := if c.selection == Locked && row.policy != Locked
    then AppendUnique(row.reasons, if containsLocked then ContainsLockedTarget else OverlapsLockedTarget)
    else row.reasons)
  }

  function TargetAt(ts: seq<Target>, p: PathKey): Option<Target> {
    if ts == [] then None
    else if ts[|ts| - 1].key == p then Some(ts[|ts| - 1])
    else TargetAt(ts[..|ts| - 1], p)
  }

  /** The row key that shows the bytes of the component. */
  function OwnerRowOf(rows: seq<Row>, ts: seq<Target>, o: PathKey): string {
    match TargetAt(ts, o)
    case None => ""
    case Some(t) => OwnerRowKey(rows, t)
  }

  function LabelledRow(rows: seq<Row>, ts: seq<Target>, row: Row): Row {
    if TargetAt(ts, row.path) == None then row
    else
      var o := OwnerOf(Claims(ts), row.path);
      if o !in ComponentsOf(ts) then row
      else Labelled(row, ComponentsOf(ts)[o], OwnerRowOf(rows, ts, o), ContainsLocked(ts, o, row.path))
  }

  function LabelledRows(rows: seq<Row>, ts: seq<Target>): (r: seq<Row>)
    ensures |r| == |rows|
  {
    seq(|rows|, i requires 0 <= i < |rows| => LabelledRow(rows, ts, rows[i]))
  }

  function OwnerSpelling(row: Row): string {
    match row.owner
    case None => ""
    case Some(o) => Spelling(o)
  }

  function RowStableKey(row: Row): string {
    OwnerSpelling(row) + "\0" + Spelling(row.path) + "\0" + row.key + "\0" + StableKey(row.item)
  }

  predicate RowLess(a: Row, b: Row) {
    LexLess(RowStableKey(a), RowStableKey(b))
  }

  /** The plan as it is when first built from these rows and targets. */
  ghost predicate IsFresh(plan: Plan, rows: seq<Row>, ts: seq<Target>) {
    && plan.targets == OwnedTargets(ts)
    && plan.rows == SortBy(LabelledRows(rows, ts), RowLess)
    && AreComponents(plan.components, ts)
  }

  lemma {:induction false} TargetAtFinds(ts: seq<Target>, p: PathKey)
    ensures match TargetAt(ts, p)
            case None => forall i :: 0 <= i < |ts| ==> ts[i].key != p
            case Some(t) => t in ts && t.key == p
    ensures DistinctKeys(ts) ==> forall i :: 0 <= i < |ts| && ts[i].key == p ==> TargetAt(ts, p) == Some(ts[i])
  {
    if ts != [] && ts[|ts| - 1].key != p {
      TargetAtFinds(ts[..|ts| - 1], p);
    }
  }

  // ----- what a component holds

  /** Some target owned by o, among the first n of the order, has the policy. */
  ghost predicate HasMember(ts: seq<Target>, order: seq<int>, o: PathKey, s: Selection) {
    exists k :: 0 <= k < |order| && 0 <= order[k] < |ts| && OwnerOf(Claims(ts), ts[order[k]].key) == o
      && ts[order[k]].policy == s
  }

  lemma HasMemberStep(ts: seq<Target>, order: seq<int>, o: PathKey, s: Selection)
    requires order != [] && forall k :: 0 <= k < |order| ==> 0 <= order[k] < |ts|
    ensures var t := ts[order[|order| - 1]];
            HasMember(ts, order, o, s) <==>
            HasMember(ts, order[..|order| - 1], o, s) || (OwnerOf(Claims(ts), t.key) == o && t.policy == s)
  {
    hide OwnerOf, Claims;
    var front := order[..|order| - 1];
    assert forall k :: 0 <= k < |front| ==> front[k] == order[k];
    if HasMember(ts, order, o, s) {
      var k :| 0 <= k < |order| && 0 <= order[k] < |ts| && OwnerOf(Claims(ts), ts[order[k]].key) == o
        && ts[order[k]].policy == s;
      assert k < |front| ==> front[k] == order[k];
    }
    if HasMember(ts, front, o, s) {
      var k :| 0 <= k < |front| && 0 <= front[k] < |ts| && OwnerOf(Claims(ts), ts[front[k]].key) == o
        && ts[front[k]].policy == s;
      assert order[k] == front[k];
    }
  }

  /** A component's selection is locked when some member is, else selected when some member is. */
  lemma {:induction false} ComponentSelection(ts: seq<Target>, order: seq<int>, o: PathKey)
    requires forall k :: 0 <= k < |order| ==> 0 <= order[k] < |ts|
    ensures o in Components(ts, order) <==>
            exists k :: 0 <= k < |order| && OwnerOf(Claims(ts), ts[order[k]].key) == o
    ensures o in Components(ts, order) ==>
              Components(ts, order)[o].selection ==
              if HasMember(ts, order, o, Locked) then Locked else if HasMember(ts, order, o, Selected) then Selected
                else Unselected
    ensures o !in Components(ts, order) ==> !HasMember(ts, order, o, Locked) && !HasMember(ts, order, o, Selected)
  {
    hide OwnerOf, Claims, HasMember;
    if order == [] {
      assert !HasMember(ts, [], o, Locked) && !HasMember(ts, [], o, Selected) by {
        NoMembers(ts, o);
      }
    } else {
      var front := order[..|order| - 1];
      ComponentSelection(ts, front, o);
      HasMemberStep(ts, order, o, Locked);
      HasMemberStep(ts, order, o, Selected);
      var t := ts[order[|order| - 1]];
      if o in Components(ts, front) {
        var k :| 0 <= k < |front| && OwnerOf(Claims(ts), ts[front[k]].key) == o;
        assert order[k] == front[k];
      }
      if k :| 0 <= k < |order| && OwnerOf(Claims(ts), ts[order[k]].key) == o && k < |front| {
        assert front[k] == order[k];
      }
    }
  }

  lemma NoMembers(ts: seq<Target>, o: PathKey)
    ensures !HasMember(ts, [], o, Locked) && !HasMember(ts, [], o, Selected)
  {
  }

  lemma OwnerHasComponent(ts: seq<Target>, order: seq<int>, n: nat, k: nat)
    requires (forall l :: 0 <= l < |order| ==> 0 <= order[l] < |ts|) && k < n <= |order|
    ensures OwnerOf(Claims(ts), ts[order[k]].key) in Components(ts, order[..n])
  {
    hide OwnerOf, Claims;
    ComponentSelection(ts, order[..n], OwnerOf(Claims(ts), ts[order[k]].key));
    assert order[..n][k] == order[k];
  }

  lemma OwnerIsEarlier(ts: seq<Target>, order: seq<int>, n: nat) returns (k: int)
    requires IsPermutation(order, |ts|) && ShallowOrdered(order, ts) && n < |order|
    ensures var o := OwnerOf(Claims(ts), ts[order[n]].key);
            && 0 <= k <= n && ts[order[k]].key == o && OwnerOf(Claims(ts), ts[order[k]].key) == o
            && (k == n || ts[order[k]].policy != Unselected)
  {
    hide OwnerOf;
    var p := ts[order[n]].key;
    var o := OwnerOf(Claims(ts), p);
    OwnerIsOutermost(Claims(ts), p);
    OwnerIsFixed(Claims(ts), p);
    k := n;
    if o != p {
      var i :| 0 <= i < |ts| && ts[i].policy != Unselected && ts[i].key == o;
      assert i in order;
      k :| 0 <= k < |order| && order[k] == i;
      assert k > n ==> Depth(p) <= Depth(o);
    }
  }

  /** A component's owner target is the target at its key, with that target's item. */
  lemma {:induction false} OwnerTargetIsSelf(ts: seq<Target>, order: seq<int>, n: nat, o: PathKey)
    requires IsPermutation(order, |ts|) && ShallowOrdered(order, ts) && n <= |order|
    requires o in Components(ts, order[..n])
    ensures OwnerOf(Claims(ts), o) == o
    ensures var c := Components(ts, order[..n])[o];
            c.ownerTarget == o && exists i :: 0 <= i < |ts| && ts[i].key == o && ts[i].item == c.owner
  {
    hide OwnerOf, Claims, ShallowOrdered;
    if n > 0 {
      assert order[..n][..n - 1] == order[..n - 1];
      var t := ts[order[n - 1]];
      OwnerIsFixed(Claims(ts), t.key);
      if o in Components(ts, order[..n - 1]) {
        OwnerTargetIsSelf(ts, order, n - 1, o);
      } else {
        var k := OwnerIsEarlier(ts, order, n - 1);
        if k < n - 1 {
          OwnerHasComponent(ts, order, n - 1, k);
        }
      }
    }
  }
}
