/** What holds of every freshly built plan: who owns what, that selections clear every lock, and that no byte is
    counted twice or lost. */
module CleanupPlanTheorems {
  import opened Wrappers
  import opened Ordering
  import opened PathKeys
  import opened CleanupTargets
  import opened CleanupPlan
  import opened CleanupComponents
  import opened CleanupPlanBuilder
  import CleanupTargetTheorems

  // ----- selection

  /** Some target owned by o has the policy. */
  ghost predicate HasPolicy(ts: seq<Target>, o: PathKey, s: Selection) {
    exists i :: 0 <= i < |ts| && OwnerOf(Claims(ts), ts[i].key) == o && ts[i].policy == s
  }

  lemma HasPolicyIsMember(ts: seq<Target>, o: PathKey, s: Selection)
    ensures HasPolicy(ts, o, s) <==> HasMember(ts, ShallowOrder(ts), o, s)
  {
    hide OwnerOf, Claims, ShallowOrder;
    ShallowOrderIsPermutation(ts);
    var order := ShallowOrder(ts);
    if HasPolicy(ts, o, s) {
      var i :| 0 <= i < |ts| && OwnerOf(Claims(ts), ts[i].key) == o && ts[i].policy == s;
      assert i in order;
      var k :| 0 <= k < |order| && order[k] == i;
    }
    if HasMember(ts, order, o, s) {
      var k :| 0 <= k < |order| && 0 <= order[k] < |ts| && OwnerOf(Claims(ts), ts[order[k]].key) == o
        && ts[order[k]].policy == s;
    }
  }

  /** A component is locked exactly when one of its targets is; else selected exactly when one of them is. */
  lemma SelectionOfComponent(ts: seq<Target>, o: PathKey)
    requires o in ComponentsOf(ts)
    ensures ComponentsOf(ts)[o].selection ==
            if HasPolicy(ts, o, Locked) then Locked else if HasPolicy(ts, o, Selected) then Selected else Unselected
  {
    ShallowOrderIsPermutation(ts);
    ComponentSelection(ts, ShallowOrder(ts), o);
    HasPolicyIsMember(ts, o, Locked);
    HasPolicyIsMember(ts, o, Selected);
  }

  /** A selected component's owner was itself selected by policy, and has no claiming ancestor. */
  lemma SelectedOwnerClaims(ts: seq<Target>, o: PathKey)
    requires o in ComponentsOf(ts) && ComponentsOf(ts)[o].selection != Unselected
    ensures o in Claims(ts) && OwnerOf(Claims(ts), o) == o && forall q :: q in Claims(ts) ==> !Contains(q, o)
  {
    hide OwnerOf, ComponentsOf;
    SelectionOfComponent(ts, o);
    var s := ComponentsOf(ts)[o].selection;
    var i :| 0 <= i < |ts| && OwnerOf(Claims(ts), ts[i].key) == o && ts[i].policy == s;
    OwnerIsOutermost(Claims(ts), ts[i].key);
    OwnerIsFixed(Claims(ts), ts[i].key);
  }

  lemma ClearOfLock(ts: seq<Target>, o: PathKey, i: int)
    requires o in ComponentsOf(ts) && ComponentsOf(ts)[o].selection == Selected && 0 <= i < |ts|
             && ts[i].policy == Locked
    ensures ts[i].key != o && !Contains(ts[i].key, o) && !Contains(o, ts[i].key)
  {
    hide OwnerOf, ComponentsOf;
    SelectedOwnerClaims(ts, o);
    SelectionOfComponent(ts, o);
    assert ts[i].key in Claims(ts);
    if Contains(o, ts[i].key) {
      OwnerThroughClaim(Claims(ts), ts[i].key, o);
    }
  }

  lemma IndexOfComponent(cs: seq<Component>, ts: seq<Target>, i: int)
    requires AreComponents(cs, ts) && 0 <= i < |cs|
    ensures var o := cs[i].key; o in ComponentsOf(ts) && cs[i].selection == ComponentsOf(ts)[o].selection
                                && cs[i].owner == ComponentsOf(ts)[o].owner
                                && cs[i].ownerTarget == ComponentsOf(ts)[o].ownerTarget
  {
    hide ComponentsOf, SortBy;
    assert cs[i] in cs;
  }

  /** In a fresh plan, no selected component contains another, and none equals, contains or lies inside a locked
      target. */
  lemma FreshSelectionIsClear(plan: Plan, rows: seq<Row>, ts: seq<Target>)
    requires DistinctKeys(ts) && IsFresh(plan, rows, ts)
    ensures forall i, j :: 0 <= i < |plan.components| && 0 <= j < |plan.components|
                           && plan.components[i].selection == Selected && plan.components[j].selection == Selected ==>
              !Contains(plan.components[i].key, plan.components[j].key)
    ensures forall i, k :: 0 <= i < |plan.components| && plan.components[i].selection == Selected
                           && 0 <= k < |plan.targets| && plan.targets[k].policy == Locked ==>
              var o, l := plan.components[i].key, plan.targets[k].key; o != l && !Contains(o, l) && !Contains(l, o)
  {
    hide ComponentsOf, AreComponents, OwnerOf, Claims, SortBy, LabelledRows;
    var cs := plan.components;
    forall i, j | 0 <= i < |cs| && 0 <= j < |cs| && cs[i].selection == Selected && cs[j].selection == Selected
      ensures !Contains(cs[i].key, cs[j].key)
    {
      IndexOfComponent(cs, ts, i);
      IndexOfComponent(cs, ts, j);
      SelectedOwnerClaims(ts, cs[i].key);
      SelectedOwnerClaims(ts, cs[j].key);
    }
    forall i, k | 0 <= i < |cs| && cs[i].selection == Selected && 0 <= k < |plan.targets|
      && plan.targets[k].policy == Locked
      ensures cs[i].key != plan.targets[k].key && !Contains(cs[i].key, plan.targets[k].key)
              && !Contains(plan.targets[k].key, cs[i].key)
    {
      IndexOfComponent(cs, ts, i);
      assert plan.targets[k] == OwnedTarget(ts, ts[k]);
      ClearOfLock(ts, cs[i].key, k);
    }
  }

  /** A lock in either direction of containment locks: a target that claims nothing keeps its own unselected
      component, and any other ends locked when a locked target lies above, at or below it. */
  lemma LocksDominate(ts: seq<Target>, i: int, k: int)
    requires 0 <= i < |ts| && 0 <= k < |ts| && ts[k].policy == Locked
    requires Contains(ts[k].key, ts[i].key) || (ts[i].policy != Unselected && ts[i].key <= ts[k].key)
    ensures OwnedTarget(ts, ts[i]).selection == Locked
  {
    hide OwnerOf, ComponentsOf;
    var p, l := ts[i].key, ts[k].key;
    var o := OwnerOf(Claims(ts), p);
    assert l in Claims(ts);
    if Contains(l, p) {
      OwnerThroughClaim(Claims(ts), p, l);
    } else if p != l {
      assert p in Claims(ts);
      OwnerThroughClaim(Claims(ts), l, p);
    }
    assert OwnerOf(Claims(ts), l) == o;
    OwnersHaveComponents(ts, i);
    SelectionOfComponent(ts, o);
  }

  // ----- execution targets

  /** The owners of the selected components, in component order. */
  function SelectedOwners(cs: seq<Component>): seq<Item> {
    if cs == [] then []
    else SelectedOwners(cs[..|cs| - 1]) + if cs[|cs| - 1].selection == Selected then [cs[|cs| - 1].owner] else []
  }

  method SelectedPhysicalTargets(plan: Plan) returns (selected: seq<Item>)
    ensures selected == SelectedOwners(plan.components)
  {
    selected := [];
    for i := 0 to |plan.components|
      invariant selected == SelectedOwners(plan.components[..i])
    {
      PrefixStep(plan.components, i);
      if plan.components[i].selection == Selected {
        selected := selected + [plan.components[i].owner];
      }
    }
    assert plan.components[..|plan.components|] == plan.components;
  }

  /** Each selected owner is that of a selected component, later ones of later components. */
  lemma {:induction false} SelectedOwnersCome(cs: seq<Component>) returns (at: seq<int>)
    ensures |at| == |SelectedOwners(cs)|
    ensures forall i :: 0 <= i < |at| ==>
              0 <= at[i] < |cs| && cs[at[i]].selection == Selected
              && SelectedOwners(cs)[i] == cs[at[i]].owner
    ensures forall i, j :: 0 <= i < j < |at| ==> at[i] < at[j]
  {
    at := [];
    if cs != [] {
      var front := cs[..|cs| - 1];
      at := SelectedOwnersCome(front);
      if cs[|cs| - 1].selection == Selected {
        at := at + [|cs| - 1];
      }
    }
  }

  lemma OwnerPath(cs: seq<Candidate>, rows: seq<Row>, ts: seq<Target>, o: PathKey)
    requires IsIntake(cs, rows, ts) && o in ComponentsOf(ts)
    ensures ComponentsOf(ts)[o].owner.path == Some(o)
  {
    var i := ComponentOwner(ts, o);
    hide ComponentsOf, SortedGroup, IsAggregate, IsRowsFor;
    var group := SortedGroup(cs, o);
    SortedGroupMembers(cs, o);
    assert IsTargetFor(ts[i], cs, o);
    RepresentativeIsBest(o, group);
    var k :| 0 <= k < |group| && BestOf(o, group).item == group[k].item;
    assert group[k] in group;
  }

  /** Normalizing a fresh plan's execution targets again changes nothing. */
  lemma FreshSelectionIsNormal(plan: Plan, cs: seq<Candidate>, rows: seq<Row>, ts: seq<Target>, out: seq<Item>)
    requires DistinctKeys(ts) && IsIntake(cs, rows, ts) && IsFresh(plan, rows, ts)
    requires IsNormalization(SelectedOwners(plan.components), out)
    ensures out == SelectedOwners(plan.components)
  {
    FreshSelectionIsClear(plan, rows, ts);
    hide IsNormalization, ComponentsOf, IsIntake, SortBy, SelectedOwners;
    var all, sel := plan.components, SelectedOwners(plan.components);
    var at := SelectedOwnersCome(all);
    forall i | 0 <= i < |sel| ensures sel[i].path == Some(all[at[i]].key) {
      IndexOfComponent(all, ts, at[i]);
      OwnerPath(cs, rows, ts, all[at[i]].key);
    }
    forall i, j | 0 <= i < j < |sel| ensures sel[i].path != sel[j].path {
      assert all[at[i]].key != all[at[j]].key;
    }
    CleanupTargetTheorems.FixedPoint(sel);
    CleanupTargetTheorems.NormalizationIsUnique(sel, out, sel);
  }

  // ----- what a planned target is, by the candidates given

  predicate IsAt(c: Candidate, p: PathKey) {
    c.item.path == Some(p)
  }

  ghost predicate HasActiveAt(candidates: seq<Candidate>, p: PathKey) {
    exists c :: c in candidates && IsAt(c, p) && c.item.isWorktree && c.item.status == "active"
  }

  ghost predicate HasSelectionAt(candidates: seq<Candidate>, p: PathKey, selection: string) {
    exists c :: c in candidates && IsAt(c, p) && c.selection == selection
  }

  /** No candidate at the path is preferred to this one. */
  ghost predicate IsBestAt(candidates: seq<Candidate>, p: PathKey, c: Candidate) {
    c in candidates && IsAt(c, p) && forall d :: d in candidates && IsAt(d, p) ==>
      !PreferForCanonical(d.item, c.item, p)
  }

  /** The item is that of a best candidate at the path, active exactly when it is a worktree and some candidate there is
      an active one. */
  ghost predicate IsItemFor(item: Item, p: PathKey, candidates: seq<Candidate>) {
    && (exists c :: IsBestAt(candidates, p, c)
                    && item == c.item.(status := if c.item.isWorktree && HasActiveAt(candidates, p) then "active"
                                                 else c.item.status, size := item.size))
    && (item.isWorktree && item.status == "active" <==> item.isWorktree && HasActiveAt(candidates, p))
  }

  /** The size is the largest of the candidates at the path with the item's raw path. */
  ghost predicate IsSizeFor(item: Item, p: PathKey, candidates: seq<Candidate>) {
    && (forall c :: c in candidates && IsAt(c, p) && c.item.raw == item.raw ==> c.item.size <= item.size)
    && ((forall c :: c in candidates && IsAt(c, p) ==> c.item.size >= 0) ==>
          exists c :: c in candidates && IsAt(c, p) && c.item.raw == item.raw && c.item.size == item.size)
  }

  /** Locked when some candidate at the path is, else selected when some candidate there is. */
  ghost predicate IsPolicyFor(policy: Selection, p: PathKey, candidates: seq<Candidate>) {
    && (policy == Locked <==> HasSelectionAt(candidates, p, "locked"))
    && (policy == Selected <==> !HasSelectionAt(candidates, p, "locked") && HasSelectionAt(candidates, p, "selected"))
  }

  ghost predicate StandsFor(t: Target, candidates: seq<Candidate>) {
    IsItemFor(t.item, t.key, candidates) && IsSizeFor(t.item, t.key, candidates)
    && IsPolicyFor(t.policy, t.key, candidates)
  }

  /** Exactly the three words are selections. */
  lemma SelectionsAreNamed(text: string)
    ensures ParseSelection(text) == Some(Selected) <==> text == "selected"
    ensures ParseSelection(text) == Some(Unselected) <==> text == "unselected"
    ensures ParseSelection(text) == Some(Locked) <==> text == "locked"
  {
  }

  /** The group of a path has the items and selections of the candidates at the path. */
  ghost predicate AreThose(group: seq<Candidate>, candidates: seq<Candidate>, p: PathKey) {
    && (forall k :: 0 <= k < |group| ==> IsAt(group[k], p) && HasLike(candidates, group[k]))
    && (forall c :: c in candidates && IsAt(c, p) ==> HasLike(group, c))
  }

  ghost predicate HasLike(cs: seq<Candidate>, c: Candidate) {
    exists k :: 0 <= k < |cs| && IsLike(cs[k], c)
  }

  predicate IsLike(c: Candidate, d: Candidate) {
    c.item == d.item && c.selection == d.selection
  }

  lemma GroupHasThose(candidates: seq<Candidate>, p: PathKey)
    ensures AreThose(SortedGroup(Keyed(SortBy(candidates, CandidateLess)), p), candidates, p)
  {
    var ordered := SortBy(candidates, CandidateLess);
    var keyed := Keyed(ordered);
    var group := SortedGroup(keyed, p);
    SortKeepsMembers(candidates, CandidateLess);
    KeyedKeeps(ordered);
    SortedGroupMembers(keyed, p);
    hide SortBy, Keyed, SortedGroup;
    forall k | 0 <= k < |group| ensures IsAt(group[k], p) && HasLike(candidates, group[k]) {
      assert group[k] in group;
      var i :| 0 <= i < |keyed| && keyed[i] == group[k];
      assert ordered[i] in ordered;
      var j :| 0 <= j < |candidates| && candidates[j] == ordered[i];
      assert IsLike(candidates[j], group[k]);
    }
    forall c | c in candidates && IsAt(c, p) ensures HasLike(group, c) {
      assert c in ordered;
      var i :| 0 <= i < |ordered| && ordered[i] == c;
      assert keyed[i] in keyed;
      assert keyed[i] in group;
      var k :| 0 <= k < |group| && group[k] == keyed[i];
      assert IsLike(group[k], c);
    }
  }

  lemma FromGroup(group: seq<Candidate>, candidates: seq<Candidate>, p: PathKey, k: int) returns (c: Candidate)
    requires AreThose(group, candidates, p) && 0 <= k < |group|
    ensures c in candidates && IsAt(c, p) && c.item == group[k].item && c.selection == group[k].selection
  {
    assert HasLike(candidates, group[k]);
    var j :| 0 <= j < |candidates| && IsLike(candidates[j], group[k]);
    c := candidates[j];
  }

  lemma ToGroup(group: seq<Candidate>, candidates: seq<Candidate>, p: PathKey, c: Candidate) returns (k: int)
    requires AreThose(group, candidates, p) && c in candidates && IsAt(c, p)
    ensures 0 <= k < |group| && c.item == group[k].item && c.selection == group[k].selection
  {
    assert HasLike(group, c);
    k :| 0 <= k < |group| && IsLike(group[k], c);
  }

  lemma ActiveAmongThose(group: seq<Candidate>, candidates: seq<Candidate>, p: PathKey)
    requires AreThose(group, candidates, p)
    ensures HasActive(group) <==> HasActiveAt(candidates, p)
  {
    hide AreThose;
    if HasActive(group) {
      var k :| 0 <= k < |group| && group[k].item.isWorktree && group[k].item.status == "active";
      var c := FromGroup(group, candidates, p, k);
    }
    if HasActiveAt(candidates, p) {
      var c :| c in candidates && IsAt(c, p) && c.item.isWorktree && c.item.status == "active";
      var k := ToGroup(group, candidates, p, c);
    }
  }

  lemma BestAmongThose(group: seq<Candidate>, candidates: seq<Candidate>, p: PathKey, k: int) returns (c: Candidate)
    requires AreThose(group, candidates, p) && IsBestRow(group, p, k)
    ensures IsBestAt(candidates, p, c) && c.item == group[k].item
  {
    hide PreferForCanonical, AreThose;
    c := FromGroup(group, candidates, p, k);
    forall d | d in candidates && IsAt(d, p) ensures !PreferForCanonical(d.item, c.item, p) {
      var l := ToGroup(group, candidates, p, d);
    }
  }

  lemma SizesAmongThose(group: seq<Candidate>, candidates: seq<Candidate>, p: PathKey, item: Item)
    requires AreThose(group, candidates, p) && Represents(item, p, group)
    ensures IsSizeFor(item, p, candidates)
  {
    hide HasActive, IsBestRow, AreThose, IsAt;
    forall c | c in candidates && IsAt(c, p) && c.item.raw == item.raw ensures c.item.size <= item.size {
      var k := ToGroup(group, candidates, p, c);
      assert HasRaw(group, item.raw, k);
    }
    if forall c :: c in candidates && IsAt(c, p) ==> c.item.size >= 0 {
      forall k | 0 <= k < |group| ensures group[k].item.size >= 0 {
        var c := FromGroup(group, candidates, p, k);
      }
      var k :| HasRaw(group, item.raw, k) && group[k].item.size == item.size;
      var c := FromGroup(group, candidates, p, k);
    }
  }

  ghost predicate HasSelection(group: seq<Candidate>, s: Selection) {
    exists k :: 0 <= k < |group| && SelectionOf(group[k]) == s
  }

  lemma AggregateMeans(group: seq<Candidate>, s: Selection)
    requires IsAggregate(group, s)
    ensures s == Locked <==> HasSelection(group, Locked)
    ensures s == Selected <==> !HasSelection(group, Locked) && HasSelection(group, Selected)
  {
    hide SelectionOf;
    if s == Selected {
      var k :| 0 <= k < |group| && SelectionOf(group[k]) != Unselected;
      assert SelectionOf(group[k]) == Selected;
    }
  }

  lemma PolicyAmongThose(group: seq<Candidate>, candidates: seq<Candidate>, p: PathKey, s: Selection)
    requires AreThose(group, candidates, p) && IsAggregate(group, s)
    ensures IsPolicyFor(s, p, candidates)
  {
    AggregateMeans(group, s);
    hide IsAggregate, HasSelection, HasSelectionAt, AreThose;
    ThoseSelected(group, candidates, p, Locked, "locked");
    ThoseSelected(group, candidates, p, Selected, "selected");
  }

  lemma ThoseSelected(group: seq<Candidate>, candidates: seq<Candidate>, p: PathKey, s: Selection, text: string)
    requires AreThose(group, candidates, p)
    requires (s == Locked && text == "locked") || (s == Selected && text == "selected")
    ensures HasSelectionAt(candidates, p, text) <==> HasSelection(group, s)
  {
    forall c: Candidate ensures SelectionOf(c) == s <==> c.selection == text {
      SelectionsAreNamed(c.selection);
    }
    hide AreThose, SelectionOf, IsAt;
    if HasSelectionAt(candidates, p, text) {
      var c :| c in candidates && IsAt(c, p) && c.selection == text;
      var k := ToGroup(group, candidates, p, c);
    }
    if HasSelection(group, s) {
      var k :| 0 <= k < |group| && SelectionOf(group[k]) == s;
      var c := FromGroup(group, candidates, p, k);
    }
  }

  /** Every target of a built plan stands for the candidates at its path. */
  lemma PlannedTargets(candidates: seq<Candidate>, plan: Plan, rows: seq<Row>, ts: seq<Target>)
    requires IsIntake(Keyed(SortBy(candidates, CandidateLess)), rows, ts) && IsFresh(plan, rows, ts)
    ensures forall i :: 0 <= i < |plan.targets| ==> StandsFor(plan.targets[i], candidates)
  {
    hide SortBy, Keyed, ComponentsOf, OwnerOf, Claims, IsRowsFor, LabelledRows, AreComponents, Represents, HasActive;
    forall i | 0 <= i < |plan.targets| ensures StandsFor(plan.targets[i], candidates) {
      var t := plan.targets[i];
      assert t == OwnedTarget(ts, ts[i]) && t.key == ts[i].key && t.item == ts[i].item && t.policy == ts[i].policy;
      assert IsTargetFor(ts[i], Keyed(SortBy(candidates, CandidateLess)), t.key);
      TargetStands(candidates, t, ts[i]);
    }
  }

  lemma TargetStands(candidates: seq<Candidate>, t: Target, t0: Target)
    requires IsTargetFor(t0, Keyed(SortBy(candidates, CandidateLess)), t0.key)
    requires t.key == t0.key && t.item == t0.item && t.policy == t0.policy
    ensures StandsFor(t, candidates)
  {
    var p := t.key;
    var group := SortedGroup(Keyed(SortBy(candidates, CandidateLess)), p);
    GroupHasThose(candidates, p);
    RepresentativeRepresents(p, group);
    hide SortedGroup, Representative, AreThose, SortBy, Keyed, IsItemFor, IsSizeFor, IsPolicyFor, Represents;
    PolicyAmongThose(group, candidates, p, t.policy);
    SizesAmongThose(group, candidates, p, t.item);
    ItemAmongThose(group, candidates, p, t.item);
  }

  lemma ItemAmongThose(group: seq<Candidate>, candidates: seq<Candidate>, p: PathKey, item: Item)
    requires AreThose(group, candidates, p) && Represents(item, p, group)
    ensures IsItemFor(item, p, candidates)
  {
    ActiveAmongThose(group, candidates, p);
    hide HasActive, HasActiveAt, AreThose, HasRaw, IsAt, IsBestRow, IsBestAt;
    var k :| IsBestRow(group, p, k)
             && item == group[k].item.(status := if group[k].item.isWorktree && HasActive(group) then "active"
                                                 else group[k].item.status, size := item.size);
    var c := BestAmongThose(group, candidates, p, k);
    assert item == c.item.(status := if c.item.isWorktree && HasActiveAt(candidates, p) then "active"
                                     else c.item.status, size := item.size);
  }

  // ----- owners and selections of the targets

  /** o is the target's own key or a claiming target's above it, and no claiming target is above o. */
  ghost predicate IsOwnerFor(o: PathKey, i: int, ts: seq<Target>) {
    && 0 <= i < |ts|
    && (o == ts[i].key || exists j :: IsClaimAt(ts, j, o) && Contains(o, ts[i].key))
    && forall j :: 0 <= j < |ts| && ts[j].policy != Unselected ==> !Contains(ts[j].key, o)
  }

  predicate IsClaimAt(ts: seq<Target>, j: int, o: PathKey) {
    0 <= j < |ts| && ts[j].policy != Unselected && ts[j].key == o
  }

  /** Only the owner is that. */
  lemma OwnerExactly(ts: seq<Target>, i: int, o: PathKey)
    requires 0 <= i < |ts|
    ensures IsOwnerFor(o, i, ts) <==> OwnerOf(Claims(ts), ts[i].key) == o
  {
    hide OwnerOf;
    var p := ts[i].key;
    OwnerIsOutermost(Claims(ts), p);
    if IsOwnerFor(o, i, ts) {
      OwnerIsUnique(Claims(ts), p, o);
    }
    if OwnerOf(Claims(ts), p) == o && o != p {
      var j :| 0 <= j < |ts| && ts[j].policy != Unselected && ts[j].key == o;
      assert IsClaimAt(ts, j, o);
    }
    if OwnerOf(Claims(ts), p) == o {
      forall j | 0 <= j < |ts| && ts[j].policy != Unselected ensures !Contains(ts[j].key, o) {
        assert ts[j].key in Claims(ts);
      }
    }
  }

  /** Some target of the owner has the policy. */
  ghost predicate OwnerHas(ts: seq<Target>, o: PathKey, s: Selection) {
    exists k :: IsOwnerFor(o, k, ts) && ts[k].policy == s
  }

  lemma OwnerHasExactly(ts: seq<Target>, o: PathKey, s: Selection)
    ensures OwnerHas(ts, o, s) <==> HasPolicy(ts, o, s)
  {
    forall i | 0 <= i < |ts| ensures IsOwnerFor(o, i, ts) <==> OwnerOf(Claims(ts), ts[i].key) == o {
      OwnerExactly(ts, i, o);
    }
    assert forall i :: IsOwnerFor(o, i, ts) ==> 0 <= i < |ts|;
    hide IsOwnerFor, OwnerOf, Claims;
    if OwnerHas(ts, o, s) {
      var i :| IsOwnerFor(o, i, ts) && ts[i].policy == s;
    }
  }

  /** In a fresh plan each target has its owner, and is locked when a target of that owner is locked by policy, else
      selected when one is selected. */
  lemma FreshTargets(plan: Plan, rows: seq<Row>, ts: seq<Target>, i: int)
    requires IsFresh(plan, rows, ts) && 0 <= i < |plan.targets|
    ensures |plan.targets| == |ts| && plan.targets[i].owner.Some?
    ensures var o, s := plan.targets[i].owner.value, plan.targets[i].selection;
            && IsOwnerFor(o, i, ts)
            && (s == Locked <==> OwnerHas(ts, o, Locked))
            && (s == Selected <==> !OwnerHas(ts, o, Locked) && OwnerHas(ts, o, Selected))
  {
    var o := OwnerOf(Claims(ts), ts[i].key);
    OwnerExactly(ts, i, o);
    OwnerHasExactly(ts, o, Locked);
    OwnerHasExactly(ts, o, Selected);
    OwnersHaveComponents(ts, i);
    SelectionOfComponent(ts, o);
    hide IsOwnerFor, OwnerHas, HasPolicy, OwnerOf, Claims, ComponentsOf, SortBy, LabelledRows, AreComponents;
    assert plan.targets[i] == OwnedTarget(ts, ts[i]);
  }

  // ----- what is asked for in which order

  /** Candidates are taken in by their row keys, those with the same key by their items. */
  lemma CandidateOrder(a: Candidate, b: Candidate)
    requires '\0' !in a.rowKey && '\0' !in b.rowKey
    ensures a.rowKey != b.rowKey ==> (CandidateLess(a, b) <==> LexLess(a.rowKey, b.rowKey))
    ensures a.rowKey == b.rowKey ==>
              (CandidateLess(a, b) <==>
               LexLess(StableKey(a.item) + "\0" + a.selection, StableKey(b.item) + "\0" + b.selection))
  {
    hide LexLess, StableKey;
    var x, y := StableKey(a.item) + "\0" + a.selection, StableKey(b.item) + "\0" + b.selection;
    assert CandidateKey(a) == a.rowKey + "\0" + x && CandidateKey(b) == b.rowKey + "\0" + y;
    if a.rowKey != b.rowKey {
      SeparatorOrders(a.rowKey, b.rowKey, x, y);
    } else {
      SamePrefix(a.rowKey + "\0", x, y);
    }
  }

  /** Rows are shown by owner, then by path, as these are written. */
  lemma RowOrder(a: Row, b: Row)
    requires a.owner.Some? && b.owner.Some?
    requires '\0' !in Spelling(a.owner.value) && '\0' !in Spelling(b.owner.value)
    requires '\0' !in Spelling(a.path) && '\0' !in Spelling(b.path)
    ensures Spelling(a.owner.value) != Spelling(b.owner.value) ==>
              (RowLess(a, b) <==> SpellingLess(a.owner.value, b.owner.value))
    ensures a.owner == b.owner && Spelling(a.path) != Spelling(b.path) ==>
              (RowLess(a, b) <==> SpellingLess(a.path, b.path))
  {
    hide LexLess, StableKey, Spelling;
    var (o, q) := (Spelling(a.owner.value), Spelling(b.owner.value));
    var x, y := a.key + "\0" + StableKey(a.item), b.key + "\0" + StableKey(b.item);
    var u, v := Spelling(a.path) + "\0" + x, Spelling(b.path) + "\0" + y;
    assert RowStableKey(a) == o + "\0" + u && RowStableKey(b) == q + "\0" + v;
    if o != q {
      SeparatorOrders(o, q, u, v);
    } else {
      SamePrefix(o + "\0", u, v);
      if Spelling(a.path) != Spelling(b.path) {
        SeparatorOrders(Spelling(a.path), Spelling(b.path), x, y);
      }
    }
  }

  /** The rows of a fresh plan are in that order. */
  lemma FreshRowsAreOrdered(plan: Plan, rows: seq<Row>, ts: seq<Target>)
    requires IsFresh(plan, rows, ts)
    ensures Ordered(plan.rows, RowLess)
  {
    LexIsWeakOrder();
    hide LexLess, SortBy, LabelledRows, OwnedTargets, AreComponents, RowStableKey;
    assert WeakOrder(RowLess);
    SortSorts(LabelledRows(rows, ts), RowLess);
  }

  lemma SelectedOwner(c: Component)
    ensures SelectedOwners([c]) == (if c.selection == Selected then [c.owner] else []) && SelectedOwners([]) == []
  {
    assert [c][..0] == [];
  }

  /** The execution targets are taken component by component, from the selected ones. */
  lemma {:induction false} SelectedOwnersMean(a: seq<Component>, b: seq<Component>)
    ensures SelectedOwners(a + b) == SelectedOwners(a) + SelectedOwners(b)
  {
    LastOfBoth(a, b);
    if b != [] {
      SelectedOwnersMean(a, b[..|b| - 1]);
    }
  }
}
