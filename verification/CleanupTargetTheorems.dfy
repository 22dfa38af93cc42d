/** What collapsing discovery rows keeps: which paths, which sizes, which activity. */
module CleanupTargetTheorems {
  import opened Wrappers
  import opened Ordering
  import opened PathKeys
  import opened CleanupTargets

  // ----- which paths

  /** No normalized path contains another, and every input path is one of them or lies below one. */
  lemma NormalizationCovers(targets: seq<Item>, out: seq<Item>)
    requires IsNormalization(targets, out)
    ensures forall i, j :: 0 <= i < |out| && 0 <= j < |out| ==> !Contains(out[i].path.value, out[j].path.value)
    ensures forall i, j :: 0 <= i < j < |out| ==> out[i].path != out[j].path
    ensures forall p :: p in InputKeys(targets) ==> exists i :: 0 <= i < |out| && out[i].path.value <= p
  {
    forall p | p in InputKeys(targets) ensures exists i :: 0 <= i < |out| && out[i].path.value <= p {
      var top := OutermostCovers(p, InputKeys(targets));
      var i :| 0 <= i < |out| && out[i].path == Some(top);
      assert out[i].path.value <= p;
    }
  }

  /** The rows have one normalization: the order in which equal paths or depths were visited leaves no trace. */
  lemma NormalizationIsUnique(targets: seq<Item>, a: seq<Item>, b: seq<Item>)
    requires IsNormalization(targets, a) && IsNormalization(targets, b)
    ensures a == b
  {
    var g := Grouped(targets);
    var rank := (item: Item) => if item.path.Some? && item.path.value in g then g[item.path.value].index as int else 0;
    SameMembers(targets, a, b);
    SameMembers(targets, b, a);
    StrictlyRankedIsUnique(a, b, rank);
  }

  lemma SameMembers(targets: seq<Item>, a: seq<Item>, b: seq<Item>)
    requires IsNormalization(targets, a) && IsNormalization(targets, b)
    ensures forall x :: x in a ==> x in b
  {
    forall x | x in a ensures x in b {
      var i :| 0 <= i < |a| && a[i] == x;
      var j :| 0 <= j < |b| && b[j].path == x.path;
      assert b[j] == x;
    }
  }

  /** Rows with distinct paths are grouped each on its own. */
  lemma {:induction false} DistinctRowsStandAlone(rows: seq<Item>)
    requires forall i :: 0 <= i < |rows| ==> rows[i].path.Some?
    requires forall i, j :: 0 <= i < j < |rows| ==> rows[i].path != rows[j].path
    ensures forall i :: 0 <= i < |rows| ==>
              rows[i].path.value in Grouped(rows)
              && Grouped(rows)[rows[i].path.value] == Start(rows[i], rows[i].path.value, i)
  {
    if rows != [] {
      var front, last := rows[..|rows| - 1], rows[|rows| - 1];
      DistinctRowsStandAlone(front);
      GroupedKeys(front);
      assert last.path.value !in InputKeys(front);
      forall i | 0 <= i < |rows|
        ensures rows[i].path.value in Grouped(rows)
                && Grouped(rows)[rows[i].path.value] == Start(rows[i], rows[i].path.value, i)
      {
        if i < |front| {
          assert rows[i] == front[i] && rows[i].path != last.path;
        }
      }
    }
  }

  /** Normalizing what is normalized changes nothing. */
  lemma NormalizationIsIdempotent(targets: seq<Item>, out: seq<Item>, again: seq<Item>)
    requires IsNormalization(targets, out) && IsNormalization(out, again)
    ensures again == out
  {
    NormalizationCovers(targets, out);
    assert forall i :: 0 <= i < |out| ==> out[i].path.Some?;
    hide IsNormalization;
    FixedPoint(out);
    NormalizationIsUnique(out, again, out);
  }

  /** Rows of which no path contains or equals another are their own normalization. */
  lemma FixedPoint(out: seq<Item>)
    requires forall i :: 0 <= i < |out| ==> out[i].path.Some?
    requires forall i, j :: 0 <= i < |out| && 0 <= j < |out| ==> !Contains(out[i].path.value, out[j].path.value)
    requires forall i, j :: 0 <= i < j < |out| ==> out[i].path != out[j].path
    ensures IsNormalization(out, out)
  {
    DistinctRowsStandAlone(out);
    hide Grouped;
    forall i | 0 <= i < |out| ensures IsOutermost(out[i].path.value, InputKeys(out)) {
      assert out[i].path.value in InputKeys(out);
    }
    forall p | IsOutermost(p, InputKeys(out)) ensures exists i :: 0 <= i < |out| && out[i].path == Some(p) {
    }
  }

  // ----- which sizes

  /** What one more row does to the group of a path. */
  lemma GroupStep(targets: seq<Item>, p: PathKey)
    requires p in Grouped(targets)
    ensures targets != []
    ensures var front, last := targets[..|targets| - 1], targets[|targets| - 1];
            && (p !in Grouped(front) ==> last.path == Some(p) && Grouped(targets)[p] == Start(last, p, |front|))
            && (p in Grouped(front) ==>
                  Grouped(targets)[p] == if last.path == Some(p) then Merge(Grouped(front)[p], last, |front|)
                    else Grouped(front)[p])
            && (p !in Grouped(front) ==> forall i :: 0 <= i < |front| ==> front[i].path != Some(p))
            && (forall i :: 0 <= i < |front| ==> front[i] == targets[i])
  {
    GroupedKeys(targets[..|targets| - 1]);
  }

  lemma MergeSize(before: Normalized, last: Item, index: nat, raw: PathKey)
    ensures var after := Merge(before, last, index);
            var size := RawSize(after.rawSizes, raw);
            && size >= RawSize(before.rawSizes, raw) && (last.raw == raw ==> last.size <= size)
            && (size == RawSize(before.rawSizes, raw) || (last.raw == raw && last.size == size))
            && after.item.size == RawSize(after.rawSizes, after.item.raw)
  {
  }

  /** The rows of the path that share the raw path. */
  predicate Shares(targets: seq<Item>, i: int, p: PathKey, raw: PathKey) {
    0 <= i < |targets| && targets[i].path == Some(p) && targets[i].raw == raw
  }

  /** For every raw path, the size kept is the largest of its rows', or zero when that is larger
      and it is not the group's first raw path. */
  lemma {:induction false} SizesAreLargest(targets: seq<Item>, p: PathKey, raw: PathKey)
    requires p in Grouped(targets)
    ensures var size := RawSize(Grouped(targets)[p].rawSizes, raw);
            && (forall i :: Shares(targets, i, p, raw) ==> targets[i].size <= size)
            && (size == 0 || exists i :: Shares(targets, i, p, raw) && targets[i].size == size)
    ensures Grouped(targets)[p].item.size == RawSize(Grouped(targets)[p].rawSizes, Grouped(targets)[p].item.raw)
  {
    hide Grouped, Merge;
    GroupStep(targets, p);
    var front, last := targets[..|targets| - 1], targets[|targets| - 1];
    assert last.path == Some(p) && last.raw == raw ==> Shares(targets, |front|, p, raw);
    assert forall i :: Shares(targets, i, p, raw) <==>
                         Shares(front, i, p, raw) || (i == |front| && last.path == Some(p) && last.raw == raw);
    if p in Grouped(front) {
      SizesAreLargest(front, p, raw);
      MergeSize(Grouped(front)[p], last, |front|, raw);
      var size, before := RawSize(Grouped(targets)[p].rawSizes, raw), RawSize(Grouped(front)[p].rawSizes, raw);
      if size == before && size != 0 {
        var i :| Shares(front, i, p, raw) && front[i].size == before;
        assert Shares(targets, i, p, raw) && targets[i].size == size;
      }
    }
  }

  /** With sizes that are not negative, each normalized item has the largest size among the rows that share
      its canonical path and its raw path, and is one of them up to size and status. */
  lemma NormalizedSize(targets: seq<Item>, out: seq<Item>, n: nat)
    requires IsNormalization(targets, out) && n < |out|
    requires forall i :: 0 <= i < |targets| ==> targets[i].size >= 0
    ensures forall i :: Shares(targets, i, out[n].path.value, out[n].raw) ==> targets[i].size <= out[n].size
    ensures exists i :: Shares(targets, i, out[n].path.value, out[n].raw) && targets[i].size == out[n].size
  {
    hide Grouped;
    var p := out[n].path.value;
    SizesAreLargest(targets, p, out[n].raw);
    var i := ChosenIsRow(targets, p);
    assert Shares(targets, i, p, out[n].raw);
  }

  lemma MergeChoice(before: Normalized, last: Item, index: nat)
    ensures var item := Merge(before, last, index).item;
            item == last.(size := item.size, status := item.status)
            || item == before.item.(size := item.size, status := item.status)
    ensures IsActiveWorktree(Merge(before, last, index).item) <==>
              Merge(before, last, index).item.isWorktree && (IsActiveWorktree(before.item) || IsActiveWorktree(last))
  {
  }

  /** The item kept for a path is one of its rows, up to size and status. */
  lemma {:induction false} ChosenIsRow(targets: seq<Item>, p: PathKey) returns (i: nat)
    requires p in Grouped(targets)
    ensures i < |targets| && targets[i].path == Some(p)
    ensures var item := Grouped(targets)[p].item; targets[i].(size := item.size, status := item.status) == item
  {
    hide Grouped, Merge;
    GroupStep(targets, p);
    var front, last := targets[..|targets| - 1], targets[|targets| - 1];
    i := |front|;
    if p in Grouped(front) {
      MergeChoice(Grouped(front)[p], last, |front|);
      var item := Grouped(targets)[p].item;
      if last.path != Some(p) || item != last.(size := item.size, status := item.status) {
        i := ChosenIsRow(front, p);
      }
    }
  }

  // ----- which activity

  /** The item kept for a path after the first k rows is a worktree. */
  predicate WorktreeAfter(targets: seq<Item>, p: PathKey, k: int) {
    0 <= k <= |targets| && p in Grouped(targets[..k]) && Grouped(targets[..k])[p].item.isWorktree
  }

  /** Row i is an active worktree of the path, and from it on the kept item was always a worktree. */
  ghost predicate HeldSince(targets: seq<Item>, p: PathKey, i: int) {
    && 0 <= i < |targets| && targets[i].path == Some(p) && IsActiveWorktree(targets[i])
    && forall k :: i < k <= |targets| ==> WorktreeAfter(targets, p, k)
  }

  lemma HeldSinceStep(targets: seq<Item>, p: PathKey, i: int)
    requires targets != []
    ensures var front := targets[..|targets| - 1];
            i < |front| ==> (HeldSince(targets, p, i) <==>
                             HeldSince(front, p, i) && WorktreeAfter(targets, p, |targets|))
  {
    var front := targets[..|targets| - 1];
    forall k | 0 <= k <= |front| ensures WorktreeAfter(front, p, k) == WorktreeAfter(targets, p, k) {
      assert front[..k] == targets[..k];
    }
  }

  lemma KeptNow(targets: seq<Item>, p: PathKey)
    requires p in Grouped(targets)
    ensures WorktreeAfter(targets, p, |targets|) <==> Grouped(targets)[p].item.isWorktree
  {
    assert targets[..|targets|] == targets;
  }

  /** Whether the kept item is an active worktree, one row at a time. */
  lemma ActivityStep(targets: seq<Item>, p: PathKey)
    requires p in Grouped(targets)
    ensures targets != []
    ensures var front, last := targets[..|targets| - 1], targets[|targets| - 1];
            var item := Grouped(targets)[p].item;
            && WorktreeAfter(targets, p, |targets|) == item.isWorktree
            && (p !in Grouped(front) ==>
                  && last.path == Some(p) && IsActiveWorktree(item) == IsActiveWorktree(last)
                  && forall i :: 0 <= i < |front| ==> targets[i].path != Some(p))
            && (p in Grouped(front) ==>
                  var hasActive := IsActiveWorktree(Grouped(front)[p].item)
                    || (last.path == Some(p) && IsActiveWorktree(last));
                  IsActiveWorktree(item) <==> item.isWorktree && hasActive)
  {
    GroupStep(targets, p);
    KeptNow(targets, p);
    hide Grouped, Merge, WorktreeAfter;
    var front, last := targets[..|targets| - 1], targets[|targets| - 1];
    if p in Grouped(front) {
      MergeChoice(Grouped(front)[p], last, |front|);
    }
  }

  lemma ActiveAtLast(targets: seq<Item>, p: PathKey)
    requires targets != [] && targets[|targets| - 1].path == Some(p) && IsActiveWorktree(targets[|targets| - 1])
    requires WorktreeAfter(targets, p, |targets|)
    ensures HeldSince(targets, p, |targets| - 1)
  {
    hide WorktreeAfter, IsActiveWorktree;
  }

  lemma {:induction false} ActiveHasSource(targets: seq<Item>, p: PathKey) returns (i: int)
    requires p in Grouped(targets) && IsActiveWorktree(Grouped(targets)[p].item)
    ensures HeldSince(targets, p, i)
  {
    ActivityStep(targets, p);
    hide Grouped, WorktreeAfter, HeldSince;
    var front, last := targets[..|targets| - 1], targets[|targets| - 1];
    i := |front|;
    if last.path == Some(p) && IsActiveWorktree(last) {
      ActiveAtLast(targets, p);
    } else {
      i := ActiveHasSource(front, p);
      HeldSinceStep(targets, p, i);
    }
  }

  lemma {:induction false} SourceKeepsActive(targets: seq<Item>, p: PathKey, i: int)
    requires p in Grouped(targets) && HeldSince(targets, p, i)
    ensures IsActiveWorktree(Grouped(targets)[p].item)
  {
    ActivityStep(targets, p);
    hide Grouped, WorktreeAfter;
    var front := targets[..|targets| - 1];
    if i < |front| {
      HeldSinceStep(targets, p, i);
      SourceKeepsActive(front, p, i);
    }
  }

  // ----- the same, read off the rows

  /** How a row ranks for a path, the smaller the better: its status and its size have no part in it. */
  function Tier(row: Item, p: PathKey): nat {
    (if row.isSymlink then 6 else 0) + (if row.raw == p then 0 else 3)
    + if row.isWorktree then 0 else if row.removesPath then 1 else 2
  }

  /** A row is preferred for a smaller tier, and within a tier for a smaller stable key. */
  lemma PreferenceIsByTier(a: Item, b: Item, p: PathKey)
    ensures PreferForCanonical(a, b, p) <==>
            Tier(a, p) < Tier(b, p)
            || (Tier(a, p) == Tier(b, p)
                && LexLess(a.before + "\0" + a.status + "\0" + a.after, b.before + "\0" + b.status + "\0" + b.after))
  {
  }

  predicate IsRowOf(targets: seq<Item>, p: PathKey, i: int) {
    0 <= i < |targets| && targets[i].path == Some(p)
  }

  /** Row j is a worktree, and none of the path's first k rows ranks before it. */
  ghost predicate LeadsAt(targets: seq<Item>, p: PathKey, k: int, j: int) {
    && j < k && IsRowOf(targets, p, j) && targets[j].isWorktree
    && forall i :: i < k && IsRowOf(targets, p, i) ==> Tier(targets[j], p) <= Tier(targets[i], p)
  }

  ghost predicate WorktreeLeads(targets: seq<Item>, p: PathKey, k: int) {
    exists j :: LeadsAt(targets, p, k, j)
  }

  /** Row i is an active worktree of the path, and from it on a worktree row led. */
  ghost predicate ActiveSince(targets: seq<Item>, p: PathKey, i: int) {
    && IsRowOf(targets, p, i) && IsActiveWorktree(targets[i])
    && forall k :: i < k <= |targets| ==> WorktreeLeads(targets, p, k)
  }

  lemma MergedTier(before: Normalized, last: Item, index: nat)
    ensures var p := before.path; var tier := Tier(Merge(before, last, index).item, p);
            tier <= Tier(before.item, p) && tier <= Tier(last, p)
  {
  }

  /** No row of the path ranks before the kept item. */
  lemma {:induction false} KeptRanksFirst(targets: seq<Item>, p: PathKey, i: int)
    requires IsRowOf(targets, p, i)
    ensures p in Grouped(targets) && Tier(Grouped(targets)[p].item, p) <= Tier(targets[i], p)
  {
    GroupedKeys(targets);
    assert p in InputKeys(targets);
    GroupStep(targets, p);
    hide Grouped, Merge, Tier;
    var front, last := targets[..|targets| - 1], targets[|targets| - 1];
    if i < |front| {
      KeptRanksFirst(front, p, i);
    }
    if p in Grouped(front) && last.path == Some(p) {
      MergedTier(Grouped(front)[p], last, |front|);
    }
    if p !in Grouped(front) {
      assert Grouped(targets)[p] == Start(last, p, |front|);
    }
  }

  /** Rows of equal tier are worktrees together. */
  lemma TierTellsWorktree(a: Item, b: Item, p: PathKey)
    requires Tier(a, p) == Tier(b, p)
    ensures a.isWorktree == b.isWorktree
  {
  }

  /** After k rows a worktree is kept exactly when a worktree row leads them. */
  lemma WorktreeLeadsExactly(targets: seq<Item>, p: PathKey, k: int)
    requires 0 <= k <= |targets|
    ensures WorktreeAfter(targets, p, k) <==> WorktreeLeads(targets, p, k)
  {
    var rows := targets[..k];
    if WorktreeAfter(targets, p, k) {
      var j := ChosenIsRow(rows, p);
      forall i | i < k && IsRowOf(targets, p, i) ensures Tier(targets[j], p) <= Tier(targets[i], p) {
        KeptRanksFirst(rows, p, i);
      }
      assert LeadsAt(targets, p, k, j);
    }
    if j :| LeadsAt(targets, p, k, j) {
      KeptRanksFirst(rows, p, j);
      var i := ChosenIsRow(rows, p);
      assert IsRowOf(targets, p, i) && Tier(Grouped(rows)[p].item, p) == Tier(targets[i], p);
      TierTellsWorktree(Grouped(rows)[p].item, targets[j], p);
    }
  }

  /** The item kept for a path is an active worktree exactly when some row is one and, from that row on, after
      each row a worktree row led those so far. */
  lemma ActivityKept(targets: seq<Item>, p: PathKey)
    requires p in Grouped(targets)
    ensures IsActiveWorktree(Grouped(targets)[p].item) <==> exists i :: ActiveSince(targets, p, i)
  {
    hide Grouped, WorktreeAfter, WorktreeLeads;
    forall k | 0 <= k <= |targets| ensures WorktreeAfter(targets, p, k) <==> WorktreeLeads(targets, p, k) {
      WorktreeLeadsExactly(targets, p, k);
    }
    assert forall i :: HeldSince(targets, p, i) <==> ActiveSince(targets, p, i);
    if IsActiveWorktree(Grouped(targets)[p].item) {
      var i := ActiveHasSource(targets, p);
      assert ActiveSince(targets, p, i);
    }
    if i :| ActiveSince(targets, p, i) {
      SourceKeepsActive(targets, p, i);
    }
  }

  lemma WorktreesStayKept(targets: seq<Item>, p: PathKey, i: int, k: int)
    requires forall j :: IsRowOf(targets, p, j) ==> targets[j].isWorktree
    requires IsRowOf(targets, p, i) && i < k <= |targets|
    ensures WorktreeLeads(targets, p, k)
  {
    var rows := targets[..k];
    KeptRanksFirst(rows, p, i);
    var j := ChosenIsRow(rows, p);
    assert IsRowOf(targets, p, j);
    WorktreeLeadsExactly(targets, p, k);
  }

  /** When every row of the path is a worktree, activity is never lost. */
  lemma ActivityKeptAmongWorktrees(targets: seq<Item>, p: PathKey)
    requires p in Grouped(targets)
    requires forall i :: IsRowOf(targets, p, i) ==> targets[i].isWorktree
    ensures IsActiveWorktree(Grouped(targets)[p].item) <==>
              exists i :: IsRowOf(targets, p, i) && IsActiveWorktree(targets[i])
  {
    ActivityKept(targets, p);
    hide Grouped, WorktreeLeads, IsActiveWorktree;
    if i :| IsRowOf(targets, p, i) && IsActiveWorktree(targets[i]) {
      forall k | i < k <= |targets| ensures WorktreeLeads(targets, p, k) {
        WorktreesStayKept(targets, p, i, k);
      }
      assert ActiveSince(targets, p, i);
    }
  }

  /** Otherwise it can be: an active worktree seen through a link, then a cache row at the path itself, then an
      orphaned worktree row there. The kept item is a worktree that is not active. */
  lemma ActivityLost() returns (targets: seq<Item>, p: PathKey)
    ensures p in Grouped(targets) && targets[0].path == Some(p) && IsActiveWorktree(targets[0])
    ensures Grouped(targets)[p].item.isWorktree && !IsActiveWorktree(Grouped(targets)[p].item)
  {
    p := ["w"];
    var active := Item(Some(p), ["l"], true, true, true, "", ACTIVE, "", 0);
    var cache := Item(Some(p), p, false, false, true, "", "", "", 0);
    var orphan := Item(Some(p), p, false, true, true, "", "orphaned", "", 0);
    targets := [active, cache, orphan];
    assert targets[..2] == [active, cache] && [active, cache][..1] == [active] && [active][..0] == [];
    var g1, g2, g3 := Grouped([active]), Grouped([active, cache]), Grouped(targets);
    assert g1[p] == Start(active, p, 0);
    assert g2[p] == Merge(g1[p], cache, 1) && !g2[p].item.isWorktree;
    assert g3[p] == Merge(g2[p], orphan, 2);
  }

  // ----- what a group keeps of its rows

  /** An active worktree is a worktree whose status says so. */
  lemma ActiveMeans(item: Item)
    ensures IsActiveWorktree(item) <==> item.isWorktree && item.status == "active"
  {
  }

  /** What decides between two rows of a path: not being a link, standing at the path, being a worktree, having its path
      removed, and last the stable key. */
  lemma PreferenceClauses(a: Item, b: Item, p: PathKey)
    ensures !a.isSymlink && b.isSymlink ==> PreferForCanonical(a, b, p)
    ensures a.isSymlink == b.isSymlink && a.raw == p && b.raw != p ==> PreferForCanonical(a, b, p)
    ensures a.isSymlink == b.isSymlink && (a.raw == p <==> b.raw == p) ==>
              && (a.isWorktree && !b.isWorktree ==> PreferForCanonical(a, b, p))
              && (!a.isWorktree && !b.isWorktree && a.removesPath && !b.removesPath ==> PreferForCanonical(a, b, p))
    ensures PreferForCanonical(a, b, p) ==> !PreferForCanonical(b, a, p)
  {
    hide LexLess, StableKey;
    if LexLess(StableKey(a), StableKey(b)) {
      LexAsymmetric(StableKey(a), StableKey(b));
    }
  }

  /** A further row of a path takes the place of the one kept exactly when it is preferred to it. */
  lemma MergePrefers(before: Normalized, last: Item, index: nat)
    ensures var item := Merge(before, last, index).item;
            item == (if PreferForCanonical(last, before.item, before.path) then last else before.item)
                    .(size := item.size, status := item.status)
    ensures var after := Merge(before, last, index).item;
            !after.isWorktree || !(IsActiveWorktree(before.item) || IsActiveWorktree(last)) ==>
              after.status == if PreferForCanonical(last, before.item, before.path) then last.status
                              else before.item.status
  {
  }

  lemma MergeIndex(before: Normalized, last: Item, index: nat)
    ensures Merge(before, last, index).index == if index < before.index then index else before.index
  {
  }

  lemma {:induction false} FirstSight(targets: seq<Item>, p: PathKey)
    requires p in Grouped(targets)
    ensures IsRowOf(targets, p, Grouped(targets)[p].index)
    ensures forall i :: IsRowOf(targets, p, i) ==> Grouped(targets)[p].index <= i
  {
    GroupStep(targets, p);
    hide Grouped, Merge;
    var front, last := targets[..|targets| - 1], targets[|targets| - 1];
    if p in Grouped(front) {
      FirstSight(front, p);
      MergeIndex(Grouped(front)[p], last, |front|);
      assert Grouped(targets)[p].index == Grouped(front)[p].index;
      assert forall i :: IsRowOf(targets, p, i) ==> IsRowOf(front, p, i) || i == |front|;
    } else {
      assert Grouped(targets)[p] == Start(last, p, |front|);
    }
  }

  /** Row i is the first of its path. */
  ghost predicate IsFirstOf(targets: seq<Item>, p: PathKey, i: int) {
    IsRowOf(targets, p, i) && forall j :: IsRowOf(targets, p, j) ==> i <= j
  }

  /** Normalized rows stand in the order in which their paths were first seen. */
  lemma OrderOfFirstSight(targets: seq<Item>, out: seq<Item>, m: int, n: int, i: int, j: int)
    requires IsNormalization(targets, out) && 0 <= m < n < |out|
    requires IsFirstOf(targets, out[m].path.value, i) && IsFirstOf(targets, out[n].path.value, j)
    ensures i < j
  {
    FirstSight(targets, out[m].path.value);
    FirstSight(targets, out[n].path.value);
    hide Grouped;
  }

  /** Every row's path is at or below that of a normalized row. */
  lemma RowIsCovered(targets: seq<Item>, out: seq<Item>, i: int) returns (n: int)
    requires IsNormalization(targets, out) && 0 <= i < |targets| && targets[i].path.Some?
    ensures 0 <= n < |out| && out[n].path.Some? && out[n].path.value <= targets[i].path.value
  {
    var p := targets[i].path.value;
    assert p in InputKeys(targets);
    hide Grouped, InputKeys;
    var top := OutermostCovers(p, InputKeys(targets));
    n :| 0 <= n < |out| && out[n].path == Some(top);
  }

  /** A normalized row's path is that of some row. */
  lemma NormalizedHasRow(targets: seq<Item>, out: seq<Item>, n: int) returns (i: int)
    requires IsNormalization(targets, out) && 0 <= n < |out|
    ensures 0 <= i < |targets| && targets[i].path.Some? && targets[i].path == out[n].path
  {
    hide Grouped;
    var p := out[n].path.value;
    assert p in InputKeys(targets);
    i :| 0 <= i < |targets| && targets[i].path.Some? && targets[i].path.value == p;
  }
}
