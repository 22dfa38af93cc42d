/** Building the physical components in place: owners, selections, and the labels of the visible rows. */
module CleanupComponents {
  import opened Wrappers
  import opened Ordering
  import opened PathKeys
  import opened CleanupTargets
  import opened CleanupPlan

  /** Whatever owners and selections were written, keys and policies still read as they did. */
  ghost predicate SamePolicies(now: seq<Target>, ts: seq<Target>) {
    |now| == |ts| && forall i :: 0 <= i < |ts| ==> now[i].(owner := ts[i].owner, selection := ts[i].selection) == ts[i]
  }

  /** The first n targets of the order have their owners; the others are as they were. */
  ghost predicate OwnersSet(now: seq<Target>, ts: seq<Target>, order: seq<int>, n: int)
    requires IsPermutation(order, |ts|) && |now| == |ts|
  {
    forall k :: 0 <= k < |order| ==>
      now[order[k]] == if k < n then ts[order[k]].(owner := Some(OwnerOf(Claims(ts), ts[order[k]].key)))
        else ts[order[k]]
  }

  lemma ClaimsAreEarlier(ts: seq<Target>, order: seq<int>, n: nat)
    requires IsPermutation(order, |ts|) && ShallowOrdered(order, ts) && n < |order|
    requires forall k :: 0 <= k < n ==>
               !(Contains(ts[order[k]].key, ts[order[n]].key) && ts[order[k]].policy != Unselected)
    ensures OwnerOf(Claims(ts), ts[order[n]].key) == ts[order[n]].key
  {
    hide OwnerOf;
    var p := ts[order[n]].key;
    forall q | q in Claims(ts) ensures !Contains(q, p) {
      var i :| 0 <= i < |ts| && ts[i].policy != Unselected && ts[i].key == q;
      assert i in order;
      var k :| 0 <= k < |order| && order[k] == i;
      if k >= n {
        assert Depth(p) <= Depth(ts[order[k]].key);
      }
    }
    OwnerIsUnique(Claims(ts), p, p);
  }

  /** The owner of the n-th target of the order, found among those before it. */
  method FindOwner(targets: array<Target>, order: seq<int>, n: int, ghost ts: seq<Target>) returns (ownerKey: PathKey)
    requires DistinctKeys(ts) && IsPermutation(order, |ts|) && ShallowOrdered(order, ts) && 0 <= n < |order|
    requires targets.Length == |ts| && OwnersSet(targets[..], ts, order, n)
    ensures ownerKey == OwnerOf(Claims(ts), ts[order[n]].key)
  {
    hide OwnerOf, Claims, ShallowOrdered;
    var key := targets[order[n]].key;
    ownerKey := key;
    assert key == ts[order[n]].key;
    var k := 0;
    while k < |order|
      invariant 0 <= k <= n
      invariant forall l :: 0 <= l < k ==> !(Contains(ts[order[l]].key, key) && ts[order[l]].policy != Unselected)
      decreases |order| - k
    {
      var previous := targets[order[k]];
      assert previous.key == ts[order[k]].key && previous.policy == ts[order[k]].policy;
      if previous.key == key {
        assert k == n;
        break;
      }
      if Contains(previous.key, key) && previous.policy != Unselected {
        ClaimIsMember(ts, order[k]);
        OwnerThroughClaim(Claims(ts), key, previous.key);
        return previous.owner.value;
      }
      k := k + 1;
    }
    ClaimsAreEarlier(ts, order, n);
  }

  lemma ClaimIsMember(ts: seq<Target>, i: int)
    requires 0 <= i < |ts| && ts[i].policy != Unselected
    ensures ts[i].key in Claims(ts)
  {
  }

  /** The targets by owner: their indices in the order. */
  ghost predicate IsByOwner(byOwner: map<PathKey, seq<int>>, ts: seq<Target>, order: seq<int>, n: int)
    requires IsPermutation(order, |ts|)
  {
    && (forall o, i :: o in byOwner && i in byOwner[o] ==> i in order && OwnerOf(Claims(ts), KeyAt(ts, i)) == o)
    && (forall k :: 0 <= k < n && k < |order| ==>
          var o := OwnerOf(Claims(ts), ts[order[k]].key); o in byOwner && order[k] in byOwner[o])
  }

  function Append(byOwner: map<PathKey, seq<int>>, o: PathKey, i: int): map<PathKey, seq<int>> {
    byOwner[o := if o in byOwner then byOwner[o] + [i] else [i]]
  }

  lemma AppendKeepsByOwner(byOwner: map<PathKey, seq<int>>, ts: seq<Target>, order: seq<int>, n: int)
    requires IsPermutation(order, |ts|) && 0 <= n < |order| && IsByOwner(byOwner, ts, order, n)
    ensures IsByOwner(Append(byOwner, OwnerOf(Claims(ts), ts[order[n]].key), order[n]), ts, order, n + 1)
  {
    hide OwnerOf, Claims;
  }

  /** Each target, shallowest first, gets its owner and joins that owner's component. */
  method AssignOwners(targets: array<Target>, order: seq<int>)
    returns (byOwner: map<PathKey, seq<int>>, components: map<PathKey, Component>)
    requires DistinctKeys(targets[..]) && IsPermutation(order, targets.Length) && ShallowOrdered(order, targets[..])
    modifies targets
    ensures OwnersSet(targets[..], old(targets[..]), order, |order|)
    ensures IsByOwner(byOwner, old(targets[..]), order, |order|)
    ensures components == Components(old(targets[..]), order)
  {
    hide OwnerOf, Claims, ShallowOrdered, IsByOwner, DistinctKeys;
    ghost var ts := targets[..];
    byOwner, components := map[], map[];
    NothingByOwner(ts, order);
    for n := 0 to |order|
      invariant OwnersSet(targets[..], ts, order, n)
      invariant IsByOwner(byOwner, ts, order, n)
      invariant components == Components(ts, order[..n])
    {
      var i := order[n];
      var ownerKey := FindOwner(targets, order, n, ts);
      assert targets[i] == ts[i];
      targets[i] := targets[i].(owner := Some(ownerKey));
      OwnersStep(targets[..], ts, order, n);
      AppendKeepsByOwner(byOwner, ts, order, n);
      byOwner := Append(byOwner, ownerKey, i);
      if ownerKey !in components {
        components := components[ownerKey := NewComponent(ownerKey, targets[i])];
      }
      components := components[ownerKey := Absorb(components[ownerKey], targets[i])];
      ComponentsStep(ts, order, n, targets[i], components);
    }
    assert order[..|order|] == order;
  }

  lemma NothingByOwner(ts: seq<Target>, order: seq<int>)
    requires IsPermutation(order, |ts|)
    ensures IsByOwner(map[], ts, order, 0) && Components(ts, []) == map[]
  {
  }

  lemma OwnersStep(now: seq<Target>, ts: seq<Target>, order: seq<int>, n: int)
    requires IsPermutation(order, |ts|) && |now| == |ts| && 0 <= n < |order|
    requires now[order[n]] == ts[order[n]].(owner := Some(OwnerOf(Claims(ts), ts[order[n]].key)))
    requires forall k :: 0 <= k < |order| && k != n ==>
               now[order[k]] == if k < n then ts[order[k]].(owner := Some(OwnerOf(Claims(ts), ts[order[k]].key)))
                 else ts[order[k]]
    ensures OwnersSet(now, ts, order, n + 1)
  {
    hide OwnerOf, Claims;
  }

  lemma ComponentsStep(ts: seq<Target>, order: seq<int>, n: int, t: Target, after: map<PathKey, Component>)
    requires (forall k :: 0 <= k < |order| ==> 0 <= order[k] < |ts|) && 0 <= n < |order|
    requires t == ts[order[n]].(owner := t.owner)
    requires var before, o := Components(ts, order[..n]), OwnerOf(Claims(ts), ts[order[n]].key);
             after == before[o := Absorb(if o in before then before[o] else NewComponent(o, t), t)]
    ensures after == Components(ts, order[..n + 1])
  {
    hide OwnerOf, Claims;
    assert order[..n + 1][..n] == order[..n];
  }

  // ----- indexing targets and rows

  ghost predicate IsIndex(byKey: map<PathKey, int>, ts: seq<Target>, n: int) {
    && (forall p :: p in byKey ==> 0 <= byKey[p] < |ts| && ts[byKey[p]].key == p)
    && (forall i :: 0 <= i < n && i < |ts| ==> ts[i].key in byKey)
  }

  method IndexTargets(targets: array<Target>) returns (byKey: map<PathKey, int>)
    ensures IsIndex(byKey, targets[..], targets.Length)
  {
    byKey := map[];
    for i := 0 to targets.Length
      invariant IsIndex(byKey, targets[..], i)
    {
      byKey := byKey[targets[i].key := i];
    }
  }

  /** The rows of targets with that owner. */
  ghost predicate Belongs(rows: seq<Row>, ts: seq<Target>, j: int, o: PathKey) {
    0 <= j < |rows| && TargetAt(ts, rows[j].path).Some? && OwnerOf(Claims(ts), rows[j].path) == o
  }

  function RowsAt(m: map<PathKey, seq<int>>, o: PathKey): seq<int> {
    if o in m then m[o] else []
  }

  function KeyFor(m: map<PathKey, string>, o: PathKey): string {
    if o in m then m[o] else ""
  }

  ghost predicate AreRowsByOwner(m: map<PathKey, seq<int>>, rows: seq<Row>, ts: seq<Target>, n: int) {
    && (forall o, j :: j in RowsAt(m, o) <==> j < n && Belongs(rows, ts, j, o))
    && (forall o :: Distinct(RowsAt(m, o)))
  }

  /** For every target that owns itself: the first row so far that is its representative. */
  ghost predicate AreOwnerRows(keys: map<PathKey, string>, rows: seq<Row>, ts: seq<Target>) {
    forall i :: 0 <= i < |ts| && OwnerOf(Claims(ts), ts[i].key) == ts[i].key ==>
      KeyFor(keys, ts[i].key) == FirstMatch(rows, ts[i])
  }

  ghost predicate HaveOwners(now: seq<Target>, ts: seq<Target>) {
    |now| == |ts| && forall i :: 0 <= i < |ts| ==> now[i] == ts[i].(owner := Some(OwnerOf(Claims(ts), ts[i].key)))
  }

  lemma OwnersSetEverywhere(now: seq<Target>, ts: seq<Target>, order: seq<int>)
    requires IsPermutation(order, |ts|) && |now| == |ts| && OwnersSet(now, ts, order, |order|)
    ensures HaveOwners(now, ts)
  {
    hide OwnerOf, Claims;
    forall i | 0 <= i < |ts| ensures now[i] == ts[i].(owner := Some(OwnerOf(Claims(ts), ts[i].key))) {
      assert i in order;
      var k :| 0 <= k < |order| && order[k] == i;
    }
  }

  /** Rows are grouped by their target's owner, and each owner is given the first row that represents it. */
  method IndexRows(rows: array<Row>, targets: array<Target>, byKey: map<PathKey, int>, ghost ts: seq<Target>)
    returns (rowsByOwner: map<PathKey, seq<int>>, ownerRowKeys: map<PathKey, string>)
    requires DistinctKeys(ts) && HaveOwners(targets[..], ts) && IsIndex(byKey, targets[..], targets.Length)
    ensures AreRowsByOwner(rowsByOwner, rows[..], ts, rows.Length)
    ensures AreOwnerRows(ownerRowKeys, rows[..], ts)
  {
    hide OwnerOf, Claims, DistinctKeys, TargetAt, AreRowsByOwner, AreOwnerRows, StableKey;
    rowsByOwner, ownerRowKeys := map[], map[];
    NoRowsIndexed(rows[..], ts);
    for j := 0 to rows.Length
      invariant AreRowsByOwner(rowsByOwner, rows[..], ts, j)
      invariant AreOwnerRows(ownerRowKeys, rows[..j], ts)
    {
      var row := rows[j];
      TargetAtFinds(ts, row.path);
      assert rows[..][j] == row;
      assert rows[..j + 1] == rows[..j] + [row];
      if row.path !in byKey {
        assert forall i :: 0 <= i < |ts| ==> ts[i].key == targets[i].key;
        RowWithoutTarget(rowsByOwner, ownerRowKeys, rows[..], ts, j);
        continue;
      }
      var target := targets[byKey[row.path]];
      assert target.key == ts[byKey[row.path]].key;
      var o := target.owner.value;
      RowJoins(rowsByOwner, rows[..], ts, j);
      OwnerRowStep(ownerRowKeys, rows[..j], row, ts, byKey[row.path]);
      rowsByOwner := Append(rowsByOwner, o, j);
      if target.key == o && KeyFor(ownerRowKeys, o) == "" && StableKey(row.item) == StableKey(target.item) {
        ownerRowKeys := ownerRowKeys[o := row.key];
      }
    }
    assert rows[..rows.Length] == rows[..];
  }

  lemma NoRowsIndexed(rows: seq<Row>, ts: seq<Target>)
    ensures AreRowsByOwner(map[], rows, ts, 0) && AreOwnerRows(map[], [], ts)
  {
  }

  lemma RowWithoutTarget(m: map<PathKey, seq<int>>, keys: map<PathKey, string>, rows: seq<Row>, ts: seq<Target>, j: int)
    requires 0 <= j < |rows| && AreRowsByOwner(m, rows, ts, j) && AreOwnerRows(keys, rows[..j], ts)
    requires TargetAt(ts, rows[j].path) == None
    ensures AreRowsByOwner(m, rows, ts, j + 1) && AreOwnerRows(keys, rows[..j] + [rows[j]], ts)
  {
    hide OwnerOf, Claims, TargetAt, StableKey;
    TargetAtFinds(ts, rows[j].path);
    var more := rows[..j] + [rows[j]];
    assert more[..|more| - 1] == rows[..j];
    assert forall o, i :: i < j + 1 && Belongs(rows, ts, i, o) ==> i < j;
  }

  lemma RowJoins(m: map<PathKey, seq<int>>, rows: seq<Row>, ts: seq<Target>, j: int)
    requires 0 <= j < |rows| && AreRowsByOwner(m, rows, ts, j) && TargetAt(ts, rows[j].path).Some?
    ensures AreRowsByOwner(Append(m, OwnerOf(Claims(ts), rows[j].path), j), rows, ts, j + 1)
  {
    hide OwnerOf, Claims, TargetAt;
    var o := OwnerOf(Claims(ts), rows[j].path);
    var after := Append(m, o, j);
    assert RowsAt(after, o) == RowsAt(m, o) + [j];
    forall q, i ensures i in RowsAt(after, q) <==> i < j + 1 && Belongs(rows, ts, i, q) {
      assert i in RowsAt(m, q) <==> i < j && Belongs(rows, ts, i, q);
    }
    forall q ensures Distinct(RowsAt(after, q)) {
      assert Distinct(RowsAt(m, q));
      if q == o {
        forall k | 0 <= k < |RowsAt(m, o)| ensures RowsAt(m, o)[k] != j {
          assert RowsAt(m, o)[k] in RowsAt(m, o);
        }
      }
    }
  }

  lemma OwnerRowStep(keys: map<PathKey, string>, before: seq<Row>, row: Row, ts: seq<Target>, t: int)
    requires DistinctKeys(ts) && 0 <= t < |ts| && ts[t].key == row.path && AreOwnerRows(keys, before, ts)
    ensures var o := OwnerOf(Claims(ts), row.path);
            AreOwnerRows(if ts[t].key == o && KeyFor(keys, o) == "" && StableKey(row.item) == StableKey(ts[t].item)
                         then keys[o := row.key] else keys, before + [row], ts)
  {
    hide OwnerOf, Claims, StableKey;
    var more := before + [row];
    assert more[..|more| - 1] == before;
    assert forall i :: 0 <= i < |ts| && ts[i].key == row.path ==> i == t;
  }

  // ----- labelling

  /** Some hard-locked target among the indices lies below the path. */
  ghost predicate LockedBelow(ts: seq<Target>, members: seq<int>, path: PathKey) {
    exists k :: 0 <= k < |members| && 0 <= members[k] < |ts|
                && ts[members[k]].policy == Locked && Contains(path, ts[members[k]].key)
  }

  method RowContainsLockedTarget(targets: array<Target>, members: seq<int>, path: PathKey) returns (found: bool)
    requires forall k :: 0 <= k < |members| ==> 0 <= members[k] < targets.Length
    ensures found <==> LockedBelow(targets[..], members, path)
  {
    for k := 0 to |members|
      invariant forall l :: 0 <= l < k ==> !(targets[members[l]].policy == Locked
                                             && Contains(path, targets[members[l]].key))
    {
      if targets[members[k]].policy == Locked && Contains(path, targets[members[k]].key) {
        return true;
      }
    }
    return false;
  }

  method SelectTargets(targets: array<Target>, members: seq<int>, selection: Selection)
    requires forall k :: 0 <= k < |members| ==> 0 <= members[k] < targets.Length
    modifies targets
    ensures forall i :: 0 <= i < targets.Length ==>
              targets[i] == if i in members then old(targets[i]).(selection := selection) else old(targets[i])
  {
    for k := 0 to |members|
      invariant forall i :: 0 <= i < targets.Length ==>
                  targets[i] == if i in members[..k] then old(targets[i]).(selection := selection) else old(targets[i])
    {
      targets[members[k]] := targets[members[k]].(selection := selection);
      assert members[..k + 1] == members[..k] + [members[k]];
    }
    assert members[..|members|] == members;
  }

  method LabelRows(rows: array<Row>, mine: seq<int>, component: Component, ownerRowKey: string,
                   targets: array<Target>, members: seq<int>)
    requires Distinct(mine) && forall k :: 0 <= k < |mine| ==> 0 <= mine[k] < rows.Length
    requires forall k :: 0 <= k < |members| ==> 0 <= members[k] < targets.Length
    modifies rows
    ensures forall j :: 0 <= j < rows.Length ==>
              rows[j] == if j in mine
              then Labelled(old(rows[j]), component, ownerRowKey, LockedBelow(targets[..], members, old(rows[j]).path))
              else old(rows[j])
  {
    hide LockedBelow, Labelled;
    for k := 0 to |mine|
      invariant forall j :: 0 <= j < rows.Length ==>
                  rows[j] == if j in mine[..k]
                  then Labelled(old(rows[j]), component, ownerRowKey,
                                LockedBelow(targets[..], members, old(rows[j]).path))
                  else old(rows[j])
    {
      var row := rows[mine[k]];
      assert mine[k] !in mine[..k];
      var labelled := LabelRow(row, component, ownerRowKey, targets, members);
      rows[mine[k]] := labelled;
      assert mine[..k + 1] == mine[..k] + [mine[k]];
    }
    assert mine[..|mine|] == mine;
  }

  method LabelRow(was: Row, component: Component, ownerRowKey: string, targets: array<Target>, members: seq<int>)
    returns (row: Row)
    requires forall k :: 0 <= k < |members| ==> 0 <= members[k] < targets.Length
    ensures row == Labelled(was, component, ownerRowKey, LockedBelow(targets[..], members, was.path))
  {
    hide LockedBelow;
    row := was.(owner := Some(component.key), selection := component.selection);
    if row.key == ownerRowKey {
      row := row.(relation := Owner, physicalBytes := component.owner.size);
    } else if row.path == component.key {
      row := row.(relation := Exact);
    } else {
      row := row.(relation := Nested);
    }
    if component.selection == Locked && row.policy != Locked {
      var reason := OverlapsLockedTarget;
      var found := RowContainsLockedTarget(targets, members, row.path);
      if found {
        reason := ContainsLockedTarget;
      }
      row := row.(reasons := AppendUnique(row.reasons, reason));
    }
  }

  // ----- the whole build

  /** Targets whose owner is no longer in left have their selection. */
  ghost predicate TargetsDone(now: seq<Target>, ts: seq<Target>, left: set<PathKey>) {
    && |now| == |ts|
    && forall i :: 0 <= i < |ts| ==>
         var o := OwnerOf(Claims(ts), ts[i].key);
         now[i] == if o in left then ts[i].(owner := Some(o)) else OwnedTarget(ts, ts[i])
  }

  ghost predicate RowsDone(now: seq<Row>, rows: seq<Row>, ts: seq<Target>, left: set<PathKey>) {
    && |now| == |rows|
    && forall j :: 0 <= j < |rows| ==>
         now[j] == if OwnerOf(Claims(ts), rows[j].path) in left then rows[j] else LabelledRow(rows, ts, rows[j])
  }

  ghost predicate ComponentsDone(cs: seq<Component>, ts: seq<Target>, left: set<PathKey>) {
    && (forall c :: c in cs <==> c.key in ComponentsOf(ts) && c.key !in left && c == Finished(ComponentsOf(ts)[c.key]))
    && (forall i, j :: 0 <= i < j < |cs| ==> cs[i].key != cs[j].key)
  }

  lemma OwnersHaveComponents(ts: seq<Target>, i: int)
    requires 0 <= i < |ts|
    ensures OwnerOf(Claims(ts), ts[i].key) in ComponentsOf(ts)
  {
    hide OwnerOf, Claims;
    ShallowOrderIsPermutation(ts);
    var order := ShallowOrder(ts);
    assert i in order && order[..|order|] == order;
    var k :| 0 <= k < |order| && order[k] == i;
    OwnerHasComponent(ts, order, |order|, k);
  }

  lemma NothingDone(targets: seq<Target>, rows: seq<Row>, ts: seq<Target>)
    requires HaveOwners(targets, ts) && DistinctKeys(ts)
    ensures TargetsDone(targets, ts, ComponentsOf(ts).Keys)
    ensures RowsDone(rows, rows, ts, ComponentsOf(ts).Keys)
    ensures ComponentsDone([], ts, ComponentsOf(ts).Keys)
  {
    hide OwnerOf, Claims, ComponentsOf;
    forall i | 0 <= i < |ts| ensures OwnerOf(Claims(ts), ts[i].key) in ComponentsOf(ts) {
      OwnersHaveComponents(ts, i);
    }
  }

  lemma TargetsStep(before: seq<Target>, now: seq<Target>, ts: seq<Target>, left: set<PathKey>, o: PathKey,
                    members: seq<int>)
    requires TargetsDone(before, ts, left) && o in left && o in ComponentsOf(ts)
    requires forall i :: i in members <==> 0 <= i < |ts| && OwnerOf(Claims(ts), ts[i].key) == o
    requires |now| == |ts| && forall i :: 0 <= i < |ts| ==>
               now[i] == if i in members then before[i].(selection := ComponentsOf(ts)[o].selection) else before[i]
    ensures TargetsDone(now, ts, left - {o})
  {
    hide OwnerOf, Claims, ComponentsOf;
  }

  lemma LockedBelowMeans(now: seq<Target>, ts: seq<Target>, members: seq<int>, o: PathKey, path: PathKey)
    requires SamePolicies(now, ts)
    requires forall i :: i in members <==> 0 <= i < |ts| && OwnerOf(Claims(ts), ts[i].key) == o
    ensures LockedBelow(now, members, path) <==> ContainsLocked(ts, o, path)
  {
    hide OwnerOf, Claims;
    if LockedBelow(now, members, path) {
      var k :| 0 <= k < |members| && 0 <= members[k] < |now| && now[members[k]].policy == Locked
        && Contains(path, now[members[k]].key);
      var i := members[k];
      assert i in members && ts[i].key == now[i].key && ts[i].policy == now[i].policy;
    }
    if ContainsLocked(ts, o, path) {
      var i :| 0 <= i < |ts| && OwnerOf(Claims(ts), ts[i].key) == o && ts[i].policy == Locked
        && Contains(path, ts[i].key);
      assert i in members;
      var k :| 0 <= k < |members| && members[k] == i;
      assert ts[i].key == now[i].key && ts[i].policy == now[i].policy;
    }
  }

  lemma RowsStep(before: seq<Row>, now: seq<Row>, rows: seq<Row>, ts: seq<Target>, left: set<PathKey>, o: PathKey,
                 mine: seq<int>, c: Component, ownerRowKey: string)
    requires RowsDone(before, rows, ts, left) && o in left && o in ComponentsOf(ts)
    requires forall j :: j in mine <==> Belongs(rows, ts, j, o)
    requires var f := ComponentsOf(ts)[o]; c.key == f.key && c.owner == f.owner && c.selection == f.selection
    requires ownerRowKey == OwnerRowOf(rows, ts, o)
    requires |now| == |rows| && forall j :: 0 <= j < |rows| ==>
               now[j] == if j in mine then Labelled(before[j], c, ownerRowKey, ContainsLocked(ts, o, before[j].path))
                 else before[j]
    ensures RowsDone(now, rows, ts, left - {o})
  {
    hide OwnerOf, Claims, ComponentsOf, ContainsLocked, OwnerRowOf, TargetAt;
  }

  /** One component: its targets and rows take its selection, and its owner row shows its bytes. */
  method FinishComponent(rows: array<Row>, targets: array<Target>, component: Component, members: seq<int>,
                         mine: seq<int>,
                         ownerRowKey: string, ghost rs: seq<Row>, ghost ts: seq<Target>, ghost left: set<PathKey>)
    requires component.key in left && component.key in ComponentsOf(ts)
    requires var f := ComponentsOf(ts)[component.key]; component.owner == f.owner && component.selection == f.selection
    requires TargetsDone(targets[..], ts, left) && RowsDone(rows[..], rs, ts, left)
    requires forall i :: i in members <==> 0 <= i < |ts| && OwnerOf(Claims(ts), ts[i].key) == component.key
    requires Distinct(mine) && forall j :: j in mine <==> Belongs(rs, ts, j, component.key)
    requires ownerRowKey == OwnerRowOf(rs, ts, component.key)
    modifies rows, targets
    ensures TargetsDone(targets[..], ts, left - {component.key}) && RowsDone(rows[..], rs, ts, left - {component.key})
  {
    hide OwnerOf, Claims, ComponentsOf, ContainsLocked, OwnerRowOf, TargetAt, LockedBelow, Labelled;
    ghost var o := component.key;
    ghost var was := targets[..];
    ghost var wasRows := rows[..];
    KeyOfComponent(ts, o);
    forall k | 0 <= k < |members| ensures 0 <= members[k] < targets.Length {
      assert members[k] in members;
    }
    forall k | 0 <= k < |mine| ensures 0 <= mine[k] < rows.Length {
      assert mine[k] in mine;
    }
    SelectTargets(targets, members, component.selection);
    TargetsStep(was, targets[..], ts, left, o, members);
    assert SamePolicies(targets[..], ts);
    LabelRows(rows, mine, component, ownerRowKey, targets, members);
    forall j | 0 <= j < rows.Length
      ensures LockedBelow(targets[..], members, wasRows[j].path) <==> ContainsLocked(ts, o, wasRows[j].path)
    {
      LockedBelowMeans(targets[..], ts, members, o, wasRows[j].path);
    }
    RowsStep(wasRows, rows[..], rs, ts, left, o, mine, component, ownerRowKey);
  }

  /** These are the components with the keys, each once. */
  ghost predicate AreThose(cs: seq<Component>, all: map<PathKey, Component>, keys: set<PathKey>) {
    && (forall c :: c in cs <==> c.key in keys && c.key in all && c == all[c.key])
    && forall i, j :: 0 <= i < j < |cs| ==> cs[i].key != cs[j].key
  }

  lemma OneMoreComponent(cs: seq<Component>, all: map<PathKey, Component>, keys: set<PathKey>, c: Component)
    requires AreThose(cs, all, keys) && c.key !in keys && c.key in all && all[c.key] == c
    ensures AreThose(cs + [c], all, keys + {c.key})
  {
    forall k | 0 <= k < |cs| ensures cs[k].key != c.key {
      assert cs[k] in cs;
    }
  }

  ghost function AllFinished(ts: seq<Target>): map<PathKey, Component> {
    map o | o in ComponentsOf(ts) :: Finished(ComponentsOf(ts)[o])
  }

  lemma DoneAreThose(cs: seq<Component>, ts: seq<Target>, left: set<PathKey>)
    ensures ComponentsDone(cs, ts, left) <==> AreThose(cs, AllFinished(ts), ComponentsOf(ts).Keys - left)
  {
    hide ComponentsOf, Finished;
  }

  lemma ComponentsDoneStep(cs: seq<Component>, ts: seq<Target>, left: set<PathKey>, o: PathKey)
    requires ComponentsDone(cs, ts, left) && o in left && o in ComponentsOf(ts)
    ensures ComponentsDone(cs + [Finished(ComponentsOf(ts)[o])], ts, left - {o})
  {
    var f := Finished(ComponentsOf(ts)[o]);
    assert f.key == o by {
      KeyOfComponent(ts, o);
    }
    hide ComponentsOf, Finished, ComponentsDone, AreThose;
    DoneAreThose(cs, ts, left);
    DoneAreThose(cs + [f], ts, left - {o});
    OneMoreComponent(cs, AllFinished(ts), ComponentsOf(ts).Keys - left, f);
    assert ComponentsOf(ts).Keys - (left - {o}) == ComponentsOf(ts).Keys - left + {o};
  }

  lemma SortedComponents(cs: seq<Component>, ts: seq<Target>)
    requires ComponentsDone(cs, ts, {})
    ensures AreComponents(SortBy(cs, KeySpellingLess), ts)
  {
    hide ComponentsOf, SortBy, Finished, SpellingLess;
    var s := SortBy(cs, KeySpellingLess);
    SortKeepsMembers(cs, KeySpellingLess);
    SortKeepsDistinct(cs, KeySpellingLess);
    forall i, j | 0 <= i < j < |s| ensures s[i].key != s[j].key {
      assert s[i] in s && s[j] in s && s[i] != s[j];
    }
    KeySpellingIsWeakOrder();
    SortSorts(cs, KeySpellingLess);
  }

  lemma KeySpellingIsWeakOrder()
    ensures WeakOrder(KeySpellingLess)
  {
    SpellingIsWeakOrder();
    hide SpellingLess;
  }

  /** What FinishComponent needs of the indexes, for one owner. */
  lemma MembersOf(byOwner: map<PathKey, seq<int>>, ts: seq<Target>, order: seq<int>, o: PathKey)
    requires IsPermutation(order, |ts|) && IsByOwner(byOwner, ts, order, |order|)
    ensures forall i :: i in RowsAt(byOwner, o) <==> 0 <= i < |ts| && OwnerOf(Claims(ts), ts[i].key) == o
  {
    hide OwnerOf, Claims;
    forall i ensures i in RowsAt(byOwner, o) <==> 0 <= i < |ts| && OwnerOf(Claims(ts), ts[i].key) == o {
      if i in RowsAt(byOwner, o) {
        assert i in order && OwnerOf(Claims(ts), KeyAt(ts, i)) == o;
        var k :| 0 <= k < |order| && order[k] == i;
      }
      if 0 <= i < |ts| {
        assert i in order;
        var k :| 0 <= k < |order| && order[k] == i;
        assert OwnerOf(Claims(ts), ts[i].key) in byOwner;
        assert i in byOwner[OwnerOf(Claims(ts), ts[i].key)];
      }
    }
  }

  lemma OwnerRowKeyIs(keys: map<PathKey, string>, rs: seq<Row>, ts: seq<Target>, o: PathKey, i: int)
    requires DistinctKeys(ts) && AreOwnerRows(keys, rs, ts) && 0 <= i < |ts| && ts[i].key == o
             && OwnerOf(Claims(ts), o) == o
    ensures OwnerRowOf(rs, ts, o) == if KeyFor(keys, o) == "" && ts[i].rowKeys != [] then ts[i].rowKeys[0]
            else KeyFor(keys, o)
  {
    hide OwnerOf, Claims, FirstMatch;
    TargetAtFinds(ts, o);
  }

  method BuildPhysicalComponents(rows: array<Row>, targets: array<Target>) returns (components: seq<Component>)
    requires DistinctKeys(targets[..])
    modifies rows, targets
    ensures targets[..] == OwnedTargets(old(targets[..]))
    ensures rows[..] == LabelledRows(old(rows[..]), old(targets[..]))
    ensures AreComponents(components, old(targets[..]))
  {
    hide *;
    ghost var ts := targets[..];
    ghost var rs := rows[..];
    ShallowOrderIsPermutation(ts);
    var order := ShallowOrder(targets[..]);
    var byKey := IndexTargets(targets);
    var byOwner, byComponent := AssignOwners(targets, order);
    OwnersSetEverywhere(targets[..], ts, order);
    ComponentsOfIs(ts);
    assert byComponent == ComponentsOf(ts);
    IndexSurvives(byKey, ts, targets[..]);
    var rowsByOwner, ownerRowKeys := IndexRows(rows, targets, byKey, ts);
    NothingDone(targets[..], rows[..], ts);
    components := [];
    var left := byComponent.Keys;
    while left != {}
      invariant left <= byComponent.Keys
      invariant TargetsDone(targets[..], ts, left) && RowsDone(rows[..], rs, ts, left)
                && ComponentsDone(components, ts, left)
      decreases |left|
    {
      var o :| o in left;
      var component := byComponent[o];
      KeyOfComponent(ts, o);
      MembersOf(byOwner, ts, order, o);
      MineOf(rowsByOwner, rs, ts, o);
      var ownerRowKey := FindOwnerRowKey(targets, byKey, component, ownerRowKeys, rs, ts, left);
      FinishComponent(rows, targets, component, RowsAt(byOwner, o), RowsAt(rowsByOwner, o), ownerRowKey, rs, ts, left);
      ComponentsDoneStep(components, ts, left, o);
      components := components + [Finished(component)];
      left := left - {o};
    }
    AllDone(targets[..], rows[..], rs, ts);
    SortedComponents(components, ts);
    components := SortBy(components, KeySpellingLess);
  }

  lemma ComponentsOfIs(ts: seq<Target>)
    ensures (forall k :: 0 <= k < |ShallowOrder(ts)| ==> 0 <= ShallowOrder(ts)[k] < |ts|)
            && ComponentsOf(ts) == Components(ts, ShallowOrder(ts))
  {
    ShallowOrderIsPermutation(ts);
  }

  lemma KeyOfComponent(ts: seq<Target>, o: PathKey)
    requires o in ComponentsOf(ts)
    ensures ComponentsOf(ts)[o].key == o
  {
    ShallowOrderIsPermutation(ts);
  }

  lemma MineOf(rowsByOwner: map<PathKey, seq<int>>, rs: seq<Row>, ts: seq<Target>, o: PathKey)
    requires AreRowsByOwner(rowsByOwner, rs, ts, |rs|)
    ensures Distinct(RowsAt(rowsByOwner, o)) && forall j :: j in RowsAt(rowsByOwner, o) <==> Belongs(rs, ts, j, o)
  {
    hide OwnerOf, Claims, TargetAt;
  }

  lemma IndexSurvives(byKey: map<PathKey, int>, ts: seq<Target>, now: seq<Target>)
    requires IsIndex(byKey, ts, |ts|) && HaveOwners(now, ts)
    ensures IsIndex(byKey, now, |now|)
  {
    hide OwnerOf, Claims;
    forall i | 0 <= i < |ts| ensures now[i].key in byKey {
      assert ts[i].key in byKey;
    }
  }

  lemma AllDone(targets: seq<Target>, rows: seq<Row>, rs: seq<Row>, ts: seq<Target>)
    requires TargetsDone(targets, ts, {}) && RowsDone(rows, rs, ts, {})
    ensures targets == OwnedTargets(ts) && rows == LabelledRows(rs, ts)
  {
    hide OwnedTarget, LabelledRow, OwnerOf, Claims;
  }

  lemma ComponentOwner(ts: seq<Target>, o: PathKey) returns (i: int)
    requires o in ComponentsOf(ts)
    ensures 0 <= i < |ts| && ts[i].key == o && OwnerOf(Claims(ts), o) == o
    ensures ComponentsOf(ts)[o].ownerTarget == o && ComponentsOf(ts)[o].owner == ts[i].item
  {
    hide OwnerOf, Claims;
    ShallowOrderIsPermutation(ts);
    var order := ShallowOrder(ts);
    assert order[..|order|] == order;
    OwnerTargetIsSelf(ts, order, |order|, o);
    i :| 0 <= i < |ts| && ts[i].key == o && ts[i].item == ComponentsOf(ts)[o].owner;
  }

  /** The first row that represents the owner, or the owner's first row when none does. */
  method FindOwnerRowKey(targets: array<Target>, byKey: map<PathKey, int>, component: Component,
                         ownerRowKeys: map<PathKey, string>, ghost rs: seq<Row>, ghost ts: seq<Target>,
                           ghost left: set<PathKey>)
    returns (ownerRowKey: string)
    requires DistinctKeys(ts) && component.key in ComponentsOf(ts) && component == ComponentsOf(ts)[component.key]
    requires TargetsDone(targets[..], ts, left)
    requires (forall p :: p in byKey ==> 0 <= byKey[p] < |ts| && ts[byKey[p]].key == p)
             && forall i :: 0 <= i < |ts| ==> ts[i].key in byKey
    requires AreOwnerRows(ownerRowKeys, rs, ts)
    ensures ownerRowKey == OwnerRowOf(rs, ts, component.key)
  {
    hide OwnerOf, Claims, ComponentsOf, OwnerRowOf, AreOwnerRows;
    ghost var i := ComponentOwner(ts, component.key);
    ownerRowKey := KeyFor(ownerRowKeys, component.key);
    OwnerRowKeyIs(ownerRowKeys, rs, ts, component.key, i);
    if ownerRowKey == "" && component.ownerTarget in byKey {
      var t := byKey[component.ownerTarget];
      assert t == i;
      assert targets[..][t].rowKeys == ts[t].rowKeys;
      if |targets[t].rowKeys| > 0 {
        ownerRowKey := targets[t].rowKeys[0];
      }
    }
  }
}
