/** Collapsing discovery rows to one item per canonical path, and those to the outermost paths. */
module CleanupTargets {
  import opened Wrappers
  import opened Ordering
  import opened PathKeys

  const ACTIVE := "active"

  /** A discovery row. path is its canonical path (None when blank), raw the path as spelled and cleaned;
      the stable key is the fields before and after the status, with the status. */
  datatype Item = Item(
    path: Option<PathKey>, raw: PathKey, isSymlink: bool, isWorktree: bool, removesPath: bool,
    before: string, status: string, after: string, size: int)

  predicate IsActiveWorktree(item: Item) {
    item.isWorktree && item.status == ACTIVE
  }

  function StableKey(item: Item): string {
    item.before + "\0" + item.status + "\0" + item.after
  }

  function Rank(item: Item): nat {
    if item.isWorktree then 0 else if item.removesPath then 1 else 2
  }

  predicate Prefer(left: Item, right: Item) {
    if Rank(left) != Rank(right) then Rank(left) < Rank(right)
    else LexLess(StableKey(left), StableKey(right))
  }

  predicate PreferForCanonical(left: Item, right: Item, path: PathKey) {
    if left.isSymlink != right.isSymlink then !left.isSymlink
    else if (left.raw == path) != (right.raw == path) then left.raw == path
    else Prefer(left, right)
  }

  /** One canonical path under construction: the preferred row, when it was first seen, and the largest
      size seen for each raw path (a raw path not seen counts as zero). */
  datatype Normalized = Normalized(item: Item, path: PathKey, index: nat, rawSizes: map<PathKey, int>)

  function RawSize(sizes: map<PathKey, int>, raw: PathKey): int {
    if raw in sizes then sizes[raw] else 0
  }

  function Start(item: Item, path: PathKey, index: nat): Normalized {
    Normalized(item, path, index, map[item.raw := item.size])
  }

  function MergedSizes(sizes: map<PathKey, int>, item: Item): map<PathKey, int> {
    if item.size > RawSize(sizes, item.raw) then sizes[item.raw := item.size] else sizes
  }

  function Chosen(existing: Item, candidate: Item, path: PathKey): Item {
    if PreferForCanonical(candidate, existing, path) then candidate else existing
  }

  /** The preferred row takes over; activity is kept when it can be; the size is that of its raw path. */
  function Merge(existing: Normalized, candidate: Item, index: nat): Normalized {
    var sizes := MergedSizes(existing.rawSizes, candidate);
    var chosen := Chosen(existing.item, candidate, existing.path);
    var active := IsActiveWorktree(existing.item) || IsActiveWorktree(candidate);
    var item := if active && chosen.isWorktree then chosen.(status := ACTIVE) else chosen;
    Normalized(item.(size := RawSize(sizes, item.raw)), existing.path,
               if index < existing.index then index else existing.index, sizes)
  }

  /** All rows, grouped by canonical path. */
  function Grouped(targets: seq<Item>): (g: map<PathKey, Normalized>)
    ensures forall p :: p in g ==> g[p].path == p && g[p].item.path == Some(p) && g[p].index < |targets|
  {
    if targets == [] then map[]
    else
      var before, last := Grouped(targets[..|targets| - 1]), targets[|targets| - 1];
      match last.path
      case None => before
      case Some(p) =>
        before[p := if p in before then Merge(before[p], last, |targets| - 1) else Start(last, p, |targets| - 1)]
  }

  function InputKeys(targets: seq<Item>): set<PathKey> {
    set i | 0 <= i < |targets| && targets[i].path.Some? :: targets[i].path.value
  }

  lemma {:induction false} GroupedKeys(targets: seq<Item>)
    ensures Grouped(targets).Keys == InputKeys(targets)
  {
    if targets != [] {
      var front, last := targets[..|targets| - 1], targets[|targets| - 1];
      GroupedKeys(front);
      assert forall i :: 0 <= i < |front| ==> front[i] == targets[i];
      assert InputKeys(targets) == InputKeys(front) + (if last.path.Some? then {last.path.value} else {});
    }
  }

  ghost function KeyOf(item: Item): PathKey {
    if item.path.Some? then item.path.value else []
  }

  /** out is one item for each outermost canonical path of the rows, the merged one, in order of first sight. */
  ghost predicate IsNormalization(targets: seq<Item>, out: seq<Item>) {
    && (forall i :: 0 <= i < |out| ==>
          && out[i].path.Some? && IsOutermost(out[i].path.value, InputKeys(targets))
          && out[i].path.value in Grouped(targets) && out[i] == Grouped(targets)[out[i].path.value].item)
    && (forall p :: IsOutermost(p, InputKeys(targets)) ==> exists i :: 0 <= i < |out| && out[i].path == Some(p))
    && (forall i, j :: 0 <= i < j < |out| ==>
          Grouped(targets)[out[i].path.value].index < Grouped(targets)[out[j].path.value].index)
  }

  predicate ShallowerCandidate(a: Normalized, b: Normalized) {
    ShallowFirst(a.path, b.path)
  }

  predicate EarlierCandidate(a: Normalized, b: Normalized) {
    if a.index == b.index then SpellingLess(a.path, b.path) else a.index < b.index
  }

  /** The rows merged by canonical path, in one pass. */
  method GroupByPath(targets: seq<Item>) returns (byPath: map<PathKey, Normalized>)
    ensures byPath == Grouped(targets)
  {
    byPath := map[];
    for i := 0 to |targets|
      invariant byPath == Grouped(targets[..i])
    {
      var target := targets[i];
      assert targets[..i + 1][..i] == targets[..i];
      match target.path {
        case None =>
        case Some(path) =>
          if path !in byPath {
            byPath := byPath[path := Start(target, path, i)];
          } else {
            var existing := byPath[path];
            if target.size > RawSize(existing.rawSizes, target.raw) {
              existing := existing.(rawSizes := existing.rawSizes[target.raw := target.size]);
            }
            var active := IsActiveWorktree(existing.item) || IsActiveWorktree(target);
            if PreferForCanonical(target, existing.item, path) {
              existing := existing.(item := target);
            }
            if active && existing.item.isWorktree {
              existing := existing.(item := existing.item.(status := ACTIVE));
            }
            existing := existing.(item := existing.item.(size := RawSize(existing.rawSizes, existing.item.raw)));
            if i < existing.index {
              existing := existing.(index := i);
            }
            byPath := byPath[path := existing];
          }
      }
    }
    assert targets[..|targets|] == targets;
  }

  ghost predicate IsValues(cs: seq<Normalized>, byPath: map<PathKey, Normalized>) {
    forall c :: c in cs <==> c.path in byPath && byPath[c.path] == c
  }

  ghost predicate SameMembers(a: seq<Normalized>, b: seq<Normalized>) {
    forall c :: c in a <==> c in b
  }

  /** Exactly the merged rows of the outermost paths. */
  ghost predicate IsOutermostValues(cs: seq<Normalized>, targets: seq<Item>) {
    forall c :: c in cs <==> c.path in Grouped(targets) && Grouped(targets)[c.path] == c
                             && IsOutermost(c.path, InputKeys(targets))
  }

  predicate IndexOrdered(cs: seq<Normalized>) {
    forall i, j :: 0 <= i < j < |cs| ==> cs[i].index <= cs[j].index
  }

  /** The values of the map, in no particular order. */
  method Values(byPath: map<PathKey, Normalized>) returns (candidates: seq<Normalized>)
    requires forall p :: p in byPath ==> byPath[p].path == p
    ensures IsValues(candidates, byPath) && DistinctPaths(candidates)
  {
    candidates := [];
    var left := byPath.Keys;
    while left != {}
      invariant left <= byPath.Keys
      invariant forall c :: c in candidates <==> c.path in byPath.Keys - left && byPath[c.path] == c
      invariant forall i, j :: 0 <= i < j < |candidates| ==> candidates[i].path != candidates[j].path
      decreases |left|
    {
      var p :| p in left;
      forall c | c in candidates ensures c.path != p {
      }
      candidates := candidates + [byPath[p]];
      left := left - {p};
    }
  }

  predicate DepthOrdered(cs: seq<Normalized>) {
    forall i, j :: 0 <= i < j < |cs| ==> Depth(cs[i].path) <= Depth(cs[j].path)
  }

  predicate DistinctPaths(cs: seq<Normalized>) {
    forall i, j :: 0 <= i < j < |cs| ==> cs[i].path != cs[j].path
  }

  predicate IsFree(c: Normalized, seen: seq<Normalized>) {
    forall d :: d in seen ==> !Contains(d.path, c.path)
  }

  /** Exactly the candidates seen that lie below no other. */
  ghost predicate KeepsFree(kept: seq<Normalized>, seen: seq<Normalized>) {
    forall c :: c in kept <==> c in seen && IsFree(c, seen)
  }

  /** Scanning from the shallowest, a candidate is kept unless one kept before it contains it. */
  method KeepOutermost(candidates: seq<Normalized>) returns (kept: seq<Normalized>)
    requires DepthOrdered(candidates) && DistinctPaths(candidates)
    ensures KeepsFree(kept, candidates) && DistinctPaths(kept)
  {
    hide KeepsFree, IsFree;
    kept := [];
    NothingKept();
    for n := 0 to |candidates|
      invariant KeepsFree(kept, candidates[..n]) && DistinctPaths(kept)
    {
      var candidate := candidates[n];
      var nested := false;
      for k := 0 to |kept|
        invariant !nested <==> forall l :: 0 <= l < k ==> !Contains(kept[l].path, candidate.path)
      {
        if Contains(kept[k].path, candidate.path) {
          nested := true;
          break;
        }
      }
      assert candidates[..n + 1] == candidates[..n] + [candidate];
      KeptDecides(candidates[..n], candidate, kept, nested);
      if !nested {
        kept := kept + [candidate];
      }
    }
    assert candidates[..|candidates|] == candidates;
  }

  lemma NothingKept()
    ensures KeepsFree([], [])
  {
  }

  lemma FreeAbove(seen: seq<Normalized>, d: Normalized) returns (top: Normalized)
    requires d in seen
    ensures top in seen && IsFree(top, seen) && top.path <= d.path
  {
    var paths := set x | x in seen :: x.path;
    var p := OutermostCovers(d.path, paths);
    top :| top in seen && top.path == p;
    forall x | x in seen ensures !Contains(x.path, top.path) {
      assert x.path in paths;
    }
  }

  /** A deeper candidate is below something seen exactly when it is below something kept; what was kept stays so. */
  lemma KeptDecides(seen: seq<Normalized>, c: Normalized, kept: seq<Normalized>, nested: bool)
    requires KeepsFree(kept, seen) && DistinctPaths(kept)
    requires forall d :: d in seen ==> Depth(d.path) <= Depth(c.path) && d.path != c.path
    requires !nested <==> forall l :: 0 <= l < |kept| ==> !Contains(kept[l].path, c.path)
    ensures KeepsFree(if nested then kept else kept + [c], seen + [c])
    ensures !nested ==> DistinctPaths(kept + [c])
  {
    var all := seen + [c];
    forall d | d in seen ensures IsFree(d, all) <==> IsFree(d, seen) {
      assert !Contains(c.path, d.path);
    }
    if nested {
      var l :| 0 <= l < |kept| && Contains(kept[l].path, c.path);
      assert kept[l] in kept;
      assert !IsFree(c, all);
    } else {
      forall d | d in all ensures !Contains(d.path, c.path) {
        if d in seen {
          var top := FreeAbove(seen, d);
          assert top in kept;
        }
      }
    }
  }

  method NormalizeTargets(targets: seq<Item>) returns (out: seq<Item>)
    ensures IsNormalization(targets, out)
  {
    hide Grouped, IsNormalization, SortBy, KeepsFree, DepthOrdered, DistinctPaths, IndexOrdered, IsValues,
         SameMembers, IsOutermostValues;
    var byPath := GroupByPath(targets);
    var candidates := Values(byPath);
    var ordered := SortBy(candidates, ShallowerCandidate);
    OrderedByDepth(candidates);
    var kept := KeepOutermost(ordered);
    FreeIsOutermost(targets, candidates, ordered, kept);
    var sorted := SortBy(kept, EarlierCandidate);
    OrderedByIndex(kept);
    out := [];
    for i := 0 to |sorted|
      invariant |out| == i && forall j :: 0 <= j < i ==> out[j] == sorted[j].item
    {
      out := out + [sorted[i].item];
    }
    KeptIsNormalization(targets, kept, sorted, out);
  }

  lemma OrderedByDepth(cs: seq<Normalized>)
    requires DistinctPaths(cs)
    ensures var s := SortBy(cs, ShallowerCandidate); DepthOrdered(s) && DistinctPaths(s) && SameMembers(s, cs)
  {
    var rank := (c: Normalized) => Depth(c.path);
    SortOrders(cs, ShallowerCandidate, rank);
    SortKeepsMembers(cs, ShallowerCandidate);
    PathsStayDistinct(cs, ShallowerCandidate);
    var s := SortBy(cs, ShallowerCandidate);
    forall i, j | 0 <= i < j < |s| ensures Depth(s[i].path) <= Depth(s[j].path) {
      assert rank(s[i]) <= rank(s[j]);
    }
  }

  lemma OrderedByIndex(cs: seq<Normalized>)
    requires DistinctPaths(cs)
    ensures var s := SortBy(cs, EarlierCandidate); IndexOrdered(s) && DistinctPaths(s) && SameMembers(s, cs)
  {
    var rank := (c: Normalized) => c.index as int;
    SortOrders(cs, EarlierCandidate, rank);
    SortKeepsMembers(cs, EarlierCandidate);
    PathsStayDistinct(cs, EarlierCandidate);
    var s := SortBy(cs, EarlierCandidate);
    forall i, j | 0 <= i < j < |s| ensures s[i].index <= s[j].index {
      assert rank(s[i]) <= rank(s[j]);
    }
  }

  lemma FreeIsOutermost(targets: seq<Item>, values: seq<Normalized>, all: seq<Normalized>, kept: seq<Normalized>)
    requires IsValues(values, Grouped(targets)) && SameMembers(all, values) && KeepsFree(kept, all)
    ensures IsOutermostValues(kept, targets)
  {
    GroupedKeys(targets);
    var g := Grouped(targets);
    forall c | c in all ensures IsFree(c, all) <==> IsOutermost(c.path, InputKeys(targets)) {
      if IsFree(c, all) {
        forall q | q in InputKeys(targets) ensures !Contains(q, c.path) {
          assert g[q] in all;
        }
      }
    }
  }

  lemma PathsStayDistinct(xs: seq<Normalized>, less: (Normalized, Normalized) -> bool)
    requires DistinctPaths(xs)
    ensures DistinctPaths(SortBy(xs, less))
  {
    SortKeepsDistinct(xs, less);
    SortKeepsMembers(xs, less);
    var s := SortBy(xs, less);
    forall i, j | 0 <= i < j < |s| ensures s[i].path != s[j].path {
      assert s[i] in xs && s[j] in xs && s[i] != s[j];
    }
  }

  /** Two paths are first seen at different rows. */
  lemma {:induction false} IndexesAreDistinct(targets: seq<Item>, p: PathKey, q: PathKey)
    requires p in Grouped(targets) && q in Grouped(targets) && p != q
    ensures Grouped(targets)[p].index != Grouped(targets)[q].index
  {
    if targets != [] {
      var front, last := targets[..|targets| - 1], targets[|targets| - 1];
      if p in Grouped(front) && q in Grouped(front) {
        IndexesAreDistinct(front, p, q);
      }
    }
  }

  lemma KeptIsNormalization(targets: seq<Item>, kept: seq<Normalized>, sorted: seq<Normalized>, out: seq<Item>)
    requires IsOutermostValues(kept, targets) && SameMembers(sorted, kept) && DistinctPaths(sorted)
             && IndexOrdered(sorted)
    requires |out| == |sorted| && forall j :: 0 <= j < |out| ==> out[j] == sorted[j].item
    ensures IsNormalization(targets, out)
  {
    GroupedKeys(targets);
    forall i | 0 <= i < |out|
      ensures out[i].path == Some(sorted[i].path) && sorted[i].path in Grouped(targets)
              && Grouped(targets)[sorted[i].path] == sorted[i]
    {
      assert sorted[i] in sorted;
    }
    forall p | IsOutermost(p, InputKeys(targets)) ensures exists i :: 0 <= i < |out| && out[i].path == Some(p) {
      var c := Grouped(targets)[p];
      assert c in sorted;
      var i :| 0 <= i < |sorted| && sorted[i] == c;
      assert out[i].path == Some(p);
    }
    forall i, j | 0 <= i < j < |out| ensures sorted[i].index < sorted[j].index {
      IndexesAreDistinct(targets, sorted[i].path, sorted[j].path);
    }
  }
}
