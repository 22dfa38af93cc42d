/** Bytes and labels of a freshly built plan: each component's bytes appear on exactly one row. */
module CleanupPlanBytes {
  import opened Wrappers
  import opened Ordering
  import opened PathKeys
  import opened CleanupTargets
  import opened CleanupPlan
  import opened CleanupComponents
  import opened CleanupPlanBuilder
  import opened CleanupPlanTheorems

  // ----- the rows of an intake

  /** Row keys are distinct, every row has its target, and every target's first row key is that of one of its rows. */
  ghost predicate RowsMatch(rows: seq<Row>, ts: seq<Target>) {
    && (forall i, j :: 0 <= i < j < |rows| ==> rows[i].key != rows[j].key)
    && (forall j :: 0 <= j < |rows| ==> rows[j].physicalBytes == 0 && TargetAt(ts, rows[j].path).Some?)
    && (forall i :: 0 <= i < |ts| ==> HasFirstRow(rows, ts[i]))
  }

  ghost predicate HasFirstRow(rows: seq<Row>, t: Target) {
    t.rowKeys != [] && exists j :: 0 <= j < |rows| && rows[j].path == t.key && rows[j].key == t.rowKeys[0]
  }

  lemma RowsForMeans(rows: seq<Row>, cs: seq<Candidate>, ts: seq<Target>)
    requires IsIntake(cs, rows, ts)
    ensures var all := GroupsOf(cs, KeysOf(ts));
            |all| == |rows| && forall i :: 0 <= i < |rows| ==> IsRowFor(rows[i], all[i])
    ensures Distinct(KeysOf(ts))
  {
    hide SortedGroup, IsTargetFor, KeysOf;
    KeyAtIndex(ts);
  }

  lemma IntakeRows(cs: seq<Candidate>, rows: seq<Row>, ts: seq<Target>)
    requires IsIntake(cs, rows, ts) && CleanupPlanBuilder.DistinctRowKeys(cs)
    requires forall k :: 0 <= k < |cs| ==> cs[k].item.path.Some?
    ensures RowsMatch(rows, ts)
  {
    hide SortedGroup, IsIntake, TargetAt, IsRowFor, GroupsOf, HasFirstRow, KeysOf;
    var all := GroupsOf(cs, KeysOf(ts));
    KeyAtIndex(ts);
    RowsForMeans(rows, cs, ts);
    GroupsMembers(cs, KeysOf(ts));
    forall i, j | 0 <= i < j < |rows| ensures rows[i].key != rows[j].key {
      RowForMeans(rows[i], all[i]);
      RowForMeans(rows[j], all[j]);
    }
    forall j | 0 <= j < |rows| ensures rows[j].physicalBytes == 0 && TargetAt(ts, rows[j].path).Some? {
      RowForMeans(rows[j], all[j]);
      assert all[j] in all;
      TargetAtFinds(ts, rows[j].path);
    }
    forall i | 0 <= i < |ts| ensures HasFirstRow(rows, ts[i]) {
      FirstRowOf(cs, rows, ts, i);
    }
  }

  lemma RowForMeans(row: Row, c: Candidate)
    requires IsRowFor(row, c)
    ensures row.key == c.rowKey && c.item.path == Some(row.path) && row.physicalBytes == 0
  {
  }

  ghost predicate HasRow(rows: seq<Row>, c: Candidate) {
    exists j :: 0 <= j < |rows| && IsRowFor(rows[j], c)
  }

  ghost predicate HasCandidate(row: Row, cs: seq<Candidate>) {
    exists k :: 0 <= k < |cs| && IsRowFor(row, cs[k])
  }

  /** Every candidate has a row, and every row a candidate. */
  lemma EveryCandidateIsShown(cs: seq<Candidate>, rows: seq<Row>, ts: seq<Target>)
    requires IsIntake(cs, rows, ts) && CleanupPlanBuilder.DistinctRowKeys(cs)
    ensures forall k :: 0 <= k < |cs| ==> HasRow(rows, cs[k])
    ensures forall j :: 0 <= j < |rows| ==> HasCandidate(rows[j], cs)
  {
    hide SortedGroup, IsTargetFor, IsRowsFor, GroupsOf, KeysOf;
    var keys := KeysOf(ts);
    var all := GroupsOf(cs, keys);
    KeyAtIndex(ts);
    RowsForMeans(rows, cs, ts);
    GroupsMembers(cs, keys);
    forall j | 0 <= j < |rows| ensures HasCandidate(rows[j], cs) {
      assert all[j] in all;
      var k :| 0 <= k < |cs| && cs[k] == all[j];
    }
    forall k | 0 <= k < |cs| ensures HasRow(rows, cs[k]) {
      var i :| 0 <= i < |ts| && cs[k].item.path == Some(ts[i].key);
      assert keys[i] in keys && cs[k] in all;
      var j :| 0 <= j < |all| && all[j] == cs[k];
      assert IsRowFor(rows[j], all[j]);
    }
  }

  lemma FirstRowOf(cs: seq<Candidate>, rows: seq<Row>, ts: seq<Target>, i: int)
    requires IsIntake(cs, rows, ts) && CleanupPlanBuilder.DistinctRowKeys(cs) && 0 <= i < |ts|
    ensures HasFirstRow(rows, ts[i])
  {
    hide SortedGroup, IsAggregate, Representative;
    var p := ts[i].key;
    var keys := KeysOf(ts);
    var all, group := GroupsOf(cs, keys), SortedGroup(cs, p);
    KeyAtIndex(ts);
    GroupsMembers(cs, keys);
    SortedGroupMembers(cs, p);
    assert IsTargetFor(ts[i], cs, p);
    assert group[0] in group && keys[i] in keys;
    assert group[0] in all;
    var j :| 0 <= j < |all| && all[j] == group[0];
    assert IsRowFor(rows[j], all[j]);
  }

  // ----- the row that shows a component's bytes

  lemma {:induction false} FirstMatchIsRow(rows: seq<Row>, t: Target)
    ensures FirstMatch(rows, t) != "" ==> exists j :: 0 <= j < |rows| && rows[j].path == t.key
                                                      && rows[j].key == FirstMatch(rows, t)
  {
    hide StableKey;
    if rows != [] {
      var front := rows[..|rows| - 1];
      FirstMatchIsRow(front, t);
      if FirstMatch(front, t) != "" {
        var j :| 0 <= j < |front| && front[j].path == t.key && front[j].key == FirstMatch(front, t);
        assert rows[j] == front[j];
      }
    }
  }

  /** The owner row of a component is one of its own rows. */
  lemma OwnerRowExists(rows: seq<Row>, ts: seq<Target>, o: PathKey) returns (j: int)
    requires DistinctKeys(ts) && RowsMatch(rows, ts) && o in ComponentsOf(ts)
    ensures 0 <= j < |rows| && rows[j].path == o && rows[j].key == OwnerRowOf(rows, ts, o)
            && OwnerOf(Claims(ts), o) == o
  {
    hide FirstMatch, OwnerOf, ComponentsOf;
    var i := ComponentOwner(ts, o);
    TargetAtFinds(ts, o);
    FirstMatchIsRow(rows, ts[i]);
    assert HasFirstRow(rows, ts[i]);
    j :| 0 <= j < |rows| && rows[j].path == o && rows[j].key == OwnerRowOf(rows, ts, o);
  }

  // ----- sums

  function RowBytes(rows: seq<Row>): int {
    if rows == [] then 0 else RowBytes(rows[..|rows| - 1]) + rows[|rows| - 1].physicalBytes
  }

  function OwnerBytes(cs: seq<Component>): int {
    if cs == [] then 0 else OwnerBytes(cs[..|cs| - 1]) + cs[|cs| - 1].owner.size
  }

  /** The bytes on the rows of the given owners. */
  function BytesOwnedBy(rows: seq<Row>, owners: set<PathKey>): int {
    if rows == [] then 0
    else
      var last := rows[|rows| - 1];
      BytesOwnedBy(rows[..|rows| - 1], owners)
        + if last.owner.Some? && last.owner.value in owners then last.physicalBytes else 0
  }

  lemma {:induction false} AddOwner(rows: seq<Row>, owners: set<PathKey>, o: PathKey)
    requires o !in owners
    ensures BytesOwnedBy(rows, owners + {o}) == BytesOwnedBy(rows, owners) + BytesOwnedBy(rows, {o})
  {
    if rows != [] {
      AddOwner(rows[..|rows| - 1], owners, o);
    }
  }

  lemma {:induction false} NoOwners(rows: seq<Row>)
    ensures BytesOwnedBy(rows, {}) == 0
  {
    if rows != [] {
      NoOwners(rows[..|rows| - 1]);
    }
  }

  lemma {:induction false} AllOwners(rows: seq<Row>, owners: set<PathKey>)
    requires forall i :: 0 <= i < |rows| ==> rows[i].owner.Some? && rows[i].owner.value in owners
    ensures BytesOwnedBy(rows, owners) == RowBytes(rows)
  {
    if rows != [] {
      AllOwners(rows[..|rows| - 1], owners);
    }
  }

  /** When one row of the owner carries size and its others nothing, the owner's rows sum to size. */
  lemma {:induction false} OneRowCarries(rows: seq<Row>, o: PathKey, key: string, size: int)
    requires forall i, j :: 0 <= i < j < |rows| ==> rows[i].key != rows[j].key
    requires forall i :: 0 <= i < |rows| && rows[i].owner == Some(o) ==>
               rows[i].physicalBytes ==
                 if rows[i].key == key then size else 0
    ensures BytesOwnedBy(rows, {o}) ==
            if exists i :: 0 <= i < |rows| && rows[i].owner == Some(o) && rows[i].key == key then size else 0
  {
    if rows != [] {
      var front, last := rows[..|rows| - 1], rows[|rows| - 1];
      OneRowCarries(front, o, key, size);
      if i :| 0 <= i < |front| && front[i].owner == Some(o) && front[i].key == key {
        assert rows[i] == front[i] && last.key != key;
      }
      if i :| 0 <= i < |rows| && rows[i].owner == Some(o) && rows[i].key == key {
        assert i < |front| ==> front[i] == rows[i];
      }
    }
  }

  lemma {:induction false} SumOverComponents(rows: seq<Row>, cs: seq<Component>) returns (owners: set<PathKey>)
    requires forall i, j :: 0 <= i < j < |cs| ==> cs[i].key != cs[j].key
    requires forall i :: 0 <= i < |cs| ==> BytesOwnedBy(rows, {cs[i].key}) == cs[i].owner.size
    ensures forall p :: p in owners <==> exists i :: 0 <= i < |cs| && cs[i].key == p
    ensures BytesOwnedBy(rows, owners) == OwnerBytes(cs)
  {
    if cs == [] {
      owners := {};
      NoOwners(rows);
    } else {
      var front, last := cs[..|cs| - 1], cs[|cs| - 1];
      var before := SumOverComponents(rows, front);
      AddOwner(rows, before, last.key);
      owners := before + {last.key};
      forall p ensures p in owners <==> exists i :: 0 <= i < |cs| && cs[i].key == p {
        if p in before {
          var i :| 0 <= i < |front| && front[i].key == p;
          assert cs[i].key == p;
        }
        if p == last.key {
          assert cs[|cs| - 1].key == p;
        }
        if i :| 0 <= i < |cs| && cs[i].key == p {
          assert i < |front| ==> front[i].key == p;
        }
      }
    }
  }

  // ----- conservation

  /** Row keys are still distinct, and the shown rows are the labelled ones. */
  ghost predicate AreShown(shown: seq<Row>, rows: seq<Row>, ts: seq<Target>) {
    && (forall i, j :: 0 <= i < j < |shown| ==> shown[i].key != shown[j].key)
    && (forall r :: r in shown <==> exists j :: 0 <= j < |rows| && r == LabelledRow(rows, ts, rows[j]))
  }

  lemma RowsKeepKeys(rows: seq<Row>, ts: seq<Target>)
    requires RowsMatch(rows, ts)
    ensures AreShown(SortBy(LabelledRows(rows, ts), RowLess), rows, ts)
  {
    hide SortBy, LabelledRow, RowLess;
    var l := LabelledRows(rows, ts);
    var s := SortBy(l, RowLess);
    forall j | 0 <= j < |rows| ensures l[j].key == rows[j].key {
      LabelKeepsKey(rows, ts, rows[j]);
    }
    forall r ensures r in l <==> exists j :: 0 <= j < |rows| && r == LabelledRow(rows, ts, rows[j]) {
      if j :| 0 <= j < |rows| && r == LabelledRow(rows, ts, rows[j]) {
        assert l[j] == r;
      }
    }
    SortKeepsMembers(l, RowLess);
    SortKeepsDistinct(l, RowLess);
    forall i, j | 0 <= i < j < |s| ensures s[i].key != s[j].key {
      assert s[i] in l && s[j] in l && s[i] != s[j];
      var a :| 0 <= a < |l| && l[a] == s[i];
      var b :| 0 <= b < |l| && l[b] == s[j];
      assert a < b || b < a;
    }
  }

  lemma LabelKeepsKey(rows: seq<Row>, ts: seq<Target>, row: Row)
    ensures LabelledRow(rows, ts, row).key == row.key && LabelledRow(rows, ts, row).path == row.path
  {
    hide ComponentsOf, OwnerOf, Claims, OwnerRowOf, ContainsLocked, TargetAt;
  }

  /** What a labelled row shows: its owner, and the owner's bytes on the owner row only. */
  lemma LabelShows(rows: seq<Row>, ts: seq<Target>, j: int)
    requires RowsMatch(rows, ts) && 0 <= j < |rows|
    ensures var o, r := OwnerOf(Claims(ts), rows[j].path), LabelledRow(rows, ts, rows[j]);
            && o in ComponentsOf(ts) && r.owner == Some(o) && r.selection == ComponentsOf(ts)[o].selection
            && r.physicalBytes == (if r.key == OwnerRowOf(rows, ts, o) then ComponentsOf(ts)[o].owner.size else 0)
            && r.relation == (if r.key == OwnerRowOf(rows, ts, o) then Owner else if r.path == o then Exact else Nested)
  {
    TargetAtFinds(ts, rows[j].path);
    var t := TargetAt(ts, rows[j].path).value;
    var i :| 0 <= i < |ts| && ts[i] == t;
    OwnersHaveComponents(ts, i);
    KeyOfComponent(ts, OwnerOf(Claims(ts), rows[j].path));
    hide ComponentsOf, OwnerOf, Claims, OwnerRowOf, ContainsLocked, TargetAt;
  }

  /** What BuildUnifiedCleanupPlan promises is enough for the theorems below. */
  lemma BuiltRowsMatch(candidates: seq<Candidate>, rows: seq<Row>, ts: seq<Target>)
    requires IsAccepted(SortBy(candidates, CandidateLess))
    requires IsIntake(Keyed(SortBy(candidates, CandidateLess)), rows, ts)
    ensures RowsMatch(rows, ts)
  {
    hide SortBy, Keyed, IsIntake, RowsMatch;
    AcceptedHavePaths(SortBy(candidates, CandidateLess));
    IntakeRows(Keyed(SortBy(candidates, CandidateLess)), rows, ts);
  }

  /** Every shown row has a component and its selection, and its bytes only if it is that component's owner row. */
  lemma ShownRow(shown: seq<Row>, rows: seq<Row>, ts: seq<Target>, i: int)
    requires RowsMatch(rows, ts) && AreShown(shown, rows, ts) && 0 <= i < |shown|
    ensures var r := shown[i];
            && r.owner.Some? && r.owner.value in ComponentsOf(ts)
            && r.selection == ComponentsOf(ts)[r.owner.value].selection
            && r.physicalBytes == if r.key == OwnerRowOf(rows, ts, r.owner.value)
               then ComponentsOf(ts)[r.owner.value].owner.size else 0
  {
    hide ComponentsOf, OwnerRowOf, LabelledRow, RowsMatch;
    assert shown[i] in shown;
    var j :| 0 <= j < |rows| && shown[i] == LabelledRow(rows, ts, rows[j]);
    LabelShows(rows, ts, j);
  }

  /** Every component's owner row is shown. */
  lemma OwnerRowIsShown(shown: seq<Row>, rows: seq<Row>, ts: seq<Target>, o: PathKey) returns (i: int)
    requires DistinctKeys(ts) && RowsMatch(rows, ts) && AreShown(shown, rows, ts) && o in ComponentsOf(ts)
    ensures 0 <= i < |shown| && shown[i].owner == Some(o) && shown[i].key == OwnerRowOf(rows, ts, o)
  {
    hide ComponentsOf, OwnerRowOf, LabelledRow, RowsMatch, OwnerOf, Claims;
    var j := OwnerRowExists(rows, ts, o);
    LabelShows(rows, ts, j);
    LabelKeepsKey(rows, ts, rows[j]);
    var r := LabelledRow(rows, ts, rows[j]);
    assert r in shown;
    i :| 0 <= i < |shown| && shown[i] == r;
  }

  lemma ComponentBytes(shown: seq<Row>, rows: seq<Row>, ts: seq<Target>, o: PathKey)
    requires DistinctKeys(ts) && RowsMatch(rows, ts) && AreShown(shown, rows, ts) && o in ComponentsOf(ts)
    ensures BytesOwnedBy(shown, {o}) == ComponentsOf(ts)[o].owner.size
  {
    hide ComponentsOf, OwnerRowOf, RowsMatch;
    var key, size := OwnerRowOf(rows, ts, o), ComponentsOf(ts)[o].owner.size;
    forall i | 0 <= i < |shown| && shown[i].owner == Some(o)
      ensures shown[i].physicalBytes == if shown[i].key == key then size else 0
    {
      ShownRow(shown, rows, ts, i);
    }
    var i := OwnerRowIsShown(shown, rows, ts, o);
    OneRowCarries(shown, o, key, size);
  }

  /** The bytes shown on the rows of a fresh plan are those of its components, each once. */
  lemma BytesAreConserved(plan: Plan, rows: seq<Row>, ts: seq<Target>)
    requires DistinctKeys(ts) && RowsMatch(rows, ts) && IsFresh(plan, rows, ts)
    ensures RowBytes(plan.rows) == OwnerBytes(plan.components)
    ensures forall i :: 0 <= i < |plan.components| ==>
              BytesOwnedBy(plan.rows, {plan.components[i].key}) == plan.components[i].owner.size
  {
    RowsKeepKeys(rows, ts);
    hide ComponentsOf, OwnerRowOf, SortBy, RowsMatch, LabelledRows, AreShown;
    var cs := plan.components;
    forall i | 0 <= i < |cs| ensures BytesOwnedBy(plan.rows, {cs[i].key}) == cs[i].owner.size {
      IndexOfComponent(cs, ts, i);
      ComponentBytes(plan.rows, rows, ts, cs[i].key);
    }
    var owners := SumOverComponents(plan.rows, cs);
    forall i | 0 <= i < |plan.rows| ensures plan.rows[i].owner.Some? && plan.rows[i].owner.value in owners {
      ShownRow(plan.rows, rows, ts, i);
      ComponentListed(cs, ts, plan.rows[i].owner.value);
    }
    AllOwners(plan.rows, owners);
  }

  lemma ComponentListed(cs: seq<Component>, ts: seq<Target>, o: PathKey)
    requires AreComponents(cs, ts) && o in ComponentsOf(ts)
    ensures exists i :: 0 <= i < |cs| && cs[i].key == o
  {
    KeyOfComponent(ts, o);
    hide ComponentsOf, SortBy;
    assert Finished(ComponentsOf(ts)[o]) in cs;
  }

  // ----- why a row is locked

  /** A row that its own policy did not lock says that it contains a locked target exactly when some locked target,
      anywhere in the plan, lies below it. */
  lemma LockReasonIsRight(rows: seq<Row>, ts: seq<Target>, j: int)
    requires RowsMatch(rows, ts) && 0 <= j < |rows|
    requires rows[j].policy != Locked && LabelledRow(rows, ts, rows[j]).selection == Locked
    ensures LabelledRow(rows, ts, rows[j]).reasons ==
            AppendUnique(rows[j].reasons,
                         if exists i :: 0 <= i < |ts| && ts[i].policy == Locked && Contains(rows[j].path, ts[i].key)
                         then ContainsLockedTarget else OverlapsLockedTarget)
  {
    var p := rows[j].path;
    var o := OwnerOf(Claims(ts), p);
    LabelShows(rows, ts, j);
    SelectedOwnerClaims(ts, o);
    OwnerIsOutermost(Claims(ts), p);
    hide OwnerOf, Claims, ComponentsOf, OwnerRowOf, TargetAt;
    if i :| 0 <= i < |ts| && ts[i].policy == Locked && Contains(p, ts[i].key) {
      assert Contains(o, ts[i].key);
      OwnerThroughClaim(Claims(ts), ts[i].key, o);
    }
  }

  // ----- how rows relate to their components

  /** The row stands at its owner's path, as its owner row or beside it, or below that path; only the owner row carries
      bytes; and it adds a reason only when its component is locked by another row. */
  ghost predicate IsRelated(r: Row, row: Row, c: Component) {
    && r.owner == Some(c.key) && r.selection == c.selection && r.path == row.path
    && (r.relation == Owner || r.relation == Exact <==> r.path == c.key)
    && (r.relation == Nested <==> Contains(c.key, r.path))
    && (r.physicalBytes == if r.relation == Owner then c.owner.size else 0)
    && row.reasons <= r.reasons && |r.reasons| <= |row.reasons| + 1
    && (c.selection != Locked || row.policy == Locked ==> r.reasons == row.reasons)
    && r.key == row.key && r.item == row.item && r.policy == row.policy
  }

  lemma OwnerRowIsAtOwner(rows: seq<Row>, ts: seq<Target>, j: int)
    requires DistinctKeys(ts) && RowsMatch(rows, ts) && 0 <= j < |rows|
    ensures var o := OwnerOf(Claims(ts), rows[j].path);
            o in ComponentsOf(ts) && (rows[j].key == OwnerRowOf(rows, ts, o) ==> rows[j].path == o)
  {
    LabelShows(rows, ts, j);
    var o := OwnerOf(Claims(ts), rows[j].path);
    hide OwnerOf, Claims, ComponentsOf, OwnerRowOf;
    var k := OwnerRowExists(rows, ts, o);
  }

  /** Every shown row is related like this to the component of its outermost claiming owner. */
  lemma RowsAreRelated(rows: seq<Row>, ts: seq<Target>, j: int)
    requires DistinctKeys(ts) && RowsMatch(rows, ts) && 0 <= j < |rows|
    ensures var o := OwnerOf(Claims(ts), rows[j].path);
            o in ComponentsOf(ts) && IsRelated(LabelledRow(rows, ts, rows[j]), rows[j], ComponentsOf(ts)[o])
  {
    var o := OwnerOf(Claims(ts), rows[j].path);
    LabelShows(rows, ts, j);
    OwnerRowIsAtOwner(rows, ts, j);
    OwnerIsOutermost(Claims(ts), rows[j].path);
    KeyOfComponent(ts, o);
    hide OwnerOf, Claims, ComponentsOf, OwnerRowOf, TargetAt, ContainsLocked;
  }

  /** The row whose key shows a target's bytes is the first one there whose item is the target's, by stable key. */
  lemma {:induction false} FirstMatchMeans(rows: seq<Row>, t: Target)
    requires forall j :: 0 <= j < |rows| ==> rows[j].key != ""
    ensures FirstMatch(rows, t) == "" <==> forall j :: !ShowsItem(rows, t, j)
    ensures FirstMatch(rows, t) != "" ==>
              exists j :: ShowsItem(rows, t, j) && rows[j].key == FirstMatch(rows, t)
                          && forall k :: ShowsItem(rows, t, k) ==> j <= k
  {
    if rows != [] {
      var front, last := rows[..|rows| - 1], rows[|rows| - 1];
      FirstMatchMeans(front, t);
      assert forall j :: ShowsItem(rows, t, j) <==>
                           ShowsItem(front, t, j) || (j == |front| && ShowsItem(rows, t, |front|));
      if FirstMatch(front, t) != "" {
        var j :| ShowsItem(front, t, j) && front[j].key == FirstMatch(front, t)
                 && forall k :: ShowsItem(front, t, k) ==> j <= k;
        assert ShowsItem(rows, t, j) && rows[j].key == FirstMatch(rows, t);
      } else if FirstMatch(rows, t) != "" {
        assert ShowsItem(rows, t, |front|) && rows[|front|].key == FirstMatch(rows, t);
      } else {
        assert !ShowsItem(rows, t, |front|);
      }
    }
  }

  predicate ShowsItem(rows: seq<Row>, t: Target, j: int) {
    0 <= j < |rows| && rows[j].path == t.key && StableKey(rows[j].item) == StableKey(t.item)
  }

  // ----- what a component lists

  /** Some target of the owner, among the first ones of the order, has the key. */
  ghost predicate OwnsKey(ts: seq<Target>, order: seq<int>, o: PathKey, key: PathKey) {
    exists k :: IsOwned(ts, order, o, k) && ts[order[k]].key == key
  }

  ghost predicate OwnsRowKey(ts: seq<Target>, order: seq<int>, o: PathKey, key: string) {
    exists k :: IsOwned(ts, order, o, k) && key in ts[order[k]].rowKeys
  }

  predicate IsOwned(ts: seq<Target>, order: seq<int>, o: PathKey, k: int) {
    0 <= k < |order| && 0 <= order[k] < |ts| && OwnerOf(Claims(ts), ts[order[k]].key) == o
  }

  lemma {:induction false} ComponentLists(ts: seq<Target>, order: seq<int>, o: PathKey)
    requires (forall k :: 0 <= k < |order| ==> 0 <= order[k] < |ts|) && o in Components(ts, order)
    ensures var c := Components(ts, order)[o];
            && (forall key :: key in c.targetKeys <==> OwnsKey(ts, order, o, key))
            && (forall key :: key in c.rowKeys <==> OwnsRowKey(ts, order, o, key))
  {
    var front, last := order[..|order| - 1], |order| - 1;
    hide OwnerOf, Claims, OwnsKey, OwnsRowKey;
    var c, t := Components(ts, order)[o], ts[order[last]];
    OwnedStep(ts, order, o);
    if o in Components(ts, front) {
      ComponentLists(ts, front, o);
    } else {
      NothingOwned(ts, front, o);
    }
  }

  lemma OwnedStep(ts: seq<Target>, order: seq<int>, o: PathKey)
    requires order != [] && forall k :: 0 <= k < |order| ==> 0 <= order[k] < |ts|
    ensures var front, t := order[..|order| - 1], ts[order[|order| - 1]];
            && (forall key :: OwnsKey(ts, order, o, key) <==>
                                OwnsKey(ts, front, o, key) || (OwnerOf(Claims(ts), t.key) == o && key == t.key))
            && (forall key :: OwnsRowKey(ts, order, o, key) <==>
                                OwnsRowKey(ts, front, o, key) || (OwnerOf(Claims(ts), t.key) == o && key in t.rowKeys))
  {
    hide OwnerOf, Claims;
    var front, t := order[..|order| - 1], ts[order[|order| - 1]];
    assert forall k :: IsOwned(ts, order, o, k) <==>
                         IsOwned(ts, front, o, k) || (k == |front| && OwnerOf(Claims(ts), t.key) == o);
    assert forall k :: 0 <= k < |front| ==> front[k] == order[k];
    forall key
      ensures OwnsKey(ts, order, o, key) <==>
                OwnsKey(ts, front, o, key) || (OwnerOf(Claims(ts), t.key) == o && key == t.key)
    {
      if k :| IsOwned(ts, front, o, k) && ts[front[k]].key == key {
        assert IsOwned(ts, order, o, k) && ts[order[k]].key == key;
      }
      if OwnerOf(Claims(ts), t.key) == o && key == t.key {
        assert IsOwned(ts, order, o, |front|);
      }
    }
    forall key
      ensures OwnsRowKey(ts, order, o, key) <==>
                OwnsRowKey(ts, front, o, key) || (OwnerOf(Claims(ts), t.key) == o && key in t.rowKeys)
    {
      if k :| IsOwned(ts, front, o, k) && key in ts[front[k]].rowKeys {
        assert IsOwned(ts, order, o, k) && key in ts[order[k]].rowKeys;
      }
      if OwnerOf(Claims(ts), t.key) == o && key in t.rowKeys {
        assert IsOwned(ts, order, o, |front|);
      }
    }
  }

  lemma NothingOwned(ts: seq<Target>, order: seq<int>, o: PathKey)
    requires (forall k :: 0 <= k < |order| ==> 0 <= order[k] < |ts|) && o !in Components(ts, order)
    ensures forall key :: !OwnsKey(ts, order, o, key)
    ensures forall key :: !OwnsRowKey(ts, order, o, key)
  {
    hide OwnerOf, Claims;
    ComponentSelection(ts, order, o);
  }

  /** A component of a fresh plan lists exactly the targets of its owner, by key, and exactly their row keys. */
  lemma ComponentsList(cs: seq<Component>, ts: seq<Target>, i: int)
    requires AreComponents(cs, ts) && 0 <= i < |cs|
    ensures forall key :: key in cs[i].targetKeys <==>
                            exists j :: 0 <= j < |ts| && OwnerOf(Claims(ts), ts[j].key) == cs[i].key && ts[j].key == key
    ensures forall key :: key in cs[i].rowKeys <==>
                            exists j :: 0 <= j < |ts| && OwnerOf(Claims(ts), ts[j].key) == cs[i].key
                                        && key in ts[j].rowKeys
  {
    var o := cs[i].key;
    assert cs[i] in cs;
    ShallowOrderIsPermutation(ts);
    var order := ShallowOrder(ts);
    ComponentLists(ts, order, o);
    var c := ComponentsOf(ts)[o];
    SortKeepsMembers(c.targetKeys, SpellingLess);
    SortKeepsMembers(c.rowKeys, LexLess);
    hide OwnerOf, Claims, SortBy, ShallowOrder, ComponentsOf;
    forall key | exists j :: 0 <= j < |ts| && OwnerOf(Claims(ts), ts[j].key) == o && ts[j].key == key
      ensures OwnsKey(ts, order, o, key)
    {
      var j :| 0 <= j < |ts| && OwnerOf(Claims(ts), ts[j].key) == o && ts[j].key == key;
      var k := PlaceOf(ts, order, o, j);
    }
    forall key | exists j :: 0 <= j < |ts| && OwnerOf(Claims(ts), ts[j].key) == o && key in ts[j].rowKeys
      ensures OwnsRowKey(ts, order, o, key)
    {
      var j :| 0 <= j < |ts| && OwnerOf(Claims(ts), ts[j].key) == o && key in ts[j].rowKeys;
      var k := PlaceOf(ts, order, o, j);
    }
  }

  lemma PlaceOf(ts: seq<Target>, order: seq<int>, o: PathKey, j: int) returns (k: int)
    requires IsPermutation(order, |ts|) && 0 <= j < |ts| && OwnerOf(Claims(ts), ts[j].key) == o
    ensures IsOwned(ts, order, o, k) && order[k] == j
  {
    assert j in order;
    k :| 0 <= k < |order| && order[k] == j;
  }

  // ----- totals

  datatype Totals = Totals(visibleRows: int, physicalTargets: int, physicalBytes: int, eligibleTargets: int,
                           eligibleBytes: int,
                           selectedTargets: int, selectedBytes: int, reviewableTargets: int, reviewableBytes: int,
                           unselectedRows: int, hardLockedRows: int, hardLockedTargets: int, hardLockedBytes: int)

  function BytesSelected(cs: seq<Component>, s: Selection): int {
    if cs == [] then 0
    else BytesSelected(cs[..|cs| - 1], s) + if cs[|cs| - 1].selection == s then cs[|cs| - 1].owner.size else 0
  }

  function TargetsSelected(cs: seq<Component>, s: Selection): nat {
    if cs == [] then 0 else TargetsSelected(cs[..|cs| - 1], s) + if cs[|cs| - 1].selection == s then 1 else 0
  }

  function RowsSelected(rows: seq<Row>, s: Selection): nat {
    if rows == [] then 0 else RowsSelected(rows[..|rows| - 1], s) + if rows[|rows| - 1].selection == s then 1 else 0
  }

  ghost predicate AreTotals(t: Totals, plan: Plan) {
    && t.visibleRows == |plan.rows| && t.physicalTargets == |plan.components|
    && t.physicalBytes == OwnerBytes(plan.components)
    && t.selectedTargets == TargetsSelected(plan.components, Selected)
    && t.selectedBytes == BytesSelected(plan.components, Selected)
    && t.reviewableTargets == TargetsSelected(plan.components, Unselected)
    && t.reviewableBytes == BytesSelected(plan.components, Unselected)
    && t.hardLockedTargets == TargetsSelected(plan.components, Locked)
    && t.hardLockedBytes == BytesSelected(plan.components, Locked)
    && t.unselectedRows == RowsSelected(plan.rows, Unselected) && t.hardLockedRows == RowsSelected(plan.rows, Locked)
    && t.eligibleTargets == t.selectedTargets + t.reviewableTargets
    && t.eligibleBytes == t.selectedBytes + t.reviewableBytes
    && t.physicalTargets == t.eligibleTargets + t.hardLockedTargets
    && t.physicalBytes == t.eligibleBytes + t.hardLockedBytes
  }

  /** The totals add up by selection: selected and reviewable are eligible, eligible and hard-locked are all. */
  method ComputeTotals(plan: Plan) returns (t: Totals)
    ensures AreTotals(t, plan)
  {
    t := Totals(|plan.rows|, 0, 0, 0, 0, 0, 0, 0, 0, 0, 0, 0, 0);
    for i := 0 to |plan.rows|
      invariant t == Totals(|plan.rows|, 0, 0, 0, 0, 0, 0, 0, 0, RowsSelected(plan.rows[..i], Unselected),
                            RowsSelected(plan.rows[..i], Locked), 0, 0)
    {
      PrefixStep(plan.rows, i);
      match plan.rows[i].selection {
        case Unselected => t := t.(unselectedRows := t.unselectedRows + 1);
        case Locked => t := t.(hardLockedRows := t.hardLockedRows + 1);
        case Selected =>
      }
    }
    assert plan.rows[..|plan.rows|] == plan.rows;
    t := t.(physicalTargets := |plan.components|);
    for i := 0 to |plan.components|
      invariant AreTotals(t.(physicalTargets := i), plan.(components := plan.components[..i]))
                && t.physicalTargets == |plan.components|
    {
      t := AddComponent(t, plan.components[i], i, plan);
    }
    assert plan.components[..|plan.components|] == plan.components;
  }

  method AddComponent(was: Totals, c: Component, ghost n: nat, ghost plan: Plan) returns (t: Totals)
    requires n < |plan.components| && c == plan.components[n]
    requires AreTotals(was.(physicalTargets := n), plan.(components := plan.components[..n]))
    ensures AreTotals(t.(physicalTargets := n + 1), plan.(components := plan.components[..n + 1]))
    ensures t.physicalTargets == was.physicalTargets
  {
    PrefixStep(plan.components, n);
    t := was.(physicalBytes := was.physicalBytes + c.owner.size);
    match c.selection {
      case Selected =>
        t := t.(eligibleTargets := t.eligibleTargets + 1, eligibleBytes := t.eligibleBytes + c.owner.size,
        selectedTargets := t.selectedTargets + 1, selectedBytes := t.selectedBytes + c.owner.size);
      case Unselected =>
        t := t.(eligibleTargets := t.eligibleTargets + 1, eligibleBytes := t.eligibleBytes + c.owner.size,
        reviewableTargets := t.reviewableTargets + 1, reviewableBytes := t.reviewableBytes + c.owner.size);
      case Locked =>
        t := t.(hardLockedTargets := t.hardLockedTargets + 1, hardLockedBytes := t.hardLockedBytes + c.owner.size);
    }
  }

  /** Adding a reason puts it last, unless it is there. */
  lemma ReasonIsAdded(reasons: seq<Reason>, reason: Reason)
    ensures reason in reasons ==> AppendUnique(reasons, reason) == reasons
    ensures reason !in reasons ==> AppendUnique(reasons, reason) == reasons + [reason]
  {
  }

  // ----- totals component by component and row by row

  /** Each component counts under its own selection. */
  lemma ComponentCounts(c: Component, s: Selection)
    ensures OwnerBytes([]) == 0 && OwnerBytes([c]) == c.owner.size
    ensures BytesSelected([c], s) == if c.selection == s then c.owner.size else 0
    ensures TargetsSelected([c], s) == if c.selection == s then 1 else 0
  {
    assert [c][..0] == [];
  }

  /** Bytes and targets add up over components. */
  lemma {:induction false} ComponentSums(a: seq<Component>, b: seq<Component>, s: Selection)
    ensures OwnerBytes(a + b) == OwnerBytes(a) + OwnerBytes(b)
    ensures BytesSelected(a + b, s) == BytesSelected(a, s) + BytesSelected(b, s)
    ensures TargetsSelected(a + b, s) == TargetsSelected(a, s) + TargetsSelected(b, s)
  {
    LastOfBoth(a, b);
    if b != [] {
      ComponentSums(a, b[..|b| - 1], s);
    }
  }

  /** Each row counts with its own bytes, for its owner and its selection. */
  lemma RowCounts(r: Row, owners: set<PathKey>, s: Selection)
    ensures RowBytes([]) == 0 && RowBytes([r]) == r.physicalBytes
    ensures BytesOwnedBy([r], owners) == if r.owner.Some? && r.owner.value in owners then r.physicalBytes else 0
    ensures RowsSelected([r], s) == if r.selection == s then 1 else 0
  {
    assert [r][..0] == [];
  }

  /** So do the rows' bytes and numbers. */
  lemma {:induction false} RowSums(a: seq<Row>, b: seq<Row>, owners: set<PathKey>, s: Selection)
    ensures RowBytes(a + b) == RowBytes(a) + RowBytes(b)
    ensures BytesOwnedBy(a + b, owners) == BytesOwnedBy(a, owners) + BytesOwnedBy(b, owners)
    ensures RowsSelected(a + b, s) == RowsSelected(a, s) + RowsSelected(b, s)
  {
    LastOfBoth(a, b);
    if b != [] {
      RowSums(a, b[..|b| - 1], owners, s);
    }
  }
}
