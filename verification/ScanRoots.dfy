/** Normalizing the scan roots: resolve each, drop repeats, sort by spelling, and keep the outermost. */
module ScanRoots {
  import opened Wrappers
  import opened Ordering
  import opened PathKeys
  import CleanupTargets

  /** What the disk says of a raw root, once blanks are trimmed and a leading tilde is expanded. */
  datatype RawRoot = Blank | Relative | Unresolved | Unreadable | Resolved(path: PathKey, isDir: bool)

  /** A usable root is a directory in the home directory, or the system temporary directory itself. */
  predicate Usable(raw: RawRoot, home: PathKey, temp: Option<PathKey>) {
    raw.Resolved? && raw.isDir && (home <= raw.path || temp == Some(raw.path))
  }

  method NormalizeRoot(raw: RawRoot, home: PathKey, temp: Option<PathKey>) returns (root: Option<PathKey>)
    ensures root.Some? <==> Usable(raw, home, temp)
    ensures root.Some? ==> raw == Resolved(root.value, true)
  {
    match raw {
      case Blank => return None;
      case Relative => return None;
      case Unresolved => return None;
      case Unreadable => return None;
      case Resolved(path, isDir) =>
        if !isDir {
          return None;
        }
        if path != home && !(home <= path) && temp != Some(path) {
          return None;
        }
        return Some(path);
    }
  }

  function PathsOf(raws: seq<RawRoot>): set<PathKey> {
    set i | 0 <= i < |raws| && raws[i].Resolved? :: raws[i].path
  }

  ghost predicate NamesAreNotEmpty(paths: set<PathKey>) {
    forall p :: p in paths ==> forall i :: 0 <= i < |p| ==> p[i] != ""
  }

  /** The outermost paths, each once, in the order of their spellings. */
  ghost predicate IsOutermostRoots(roots: seq<PathKey>, paths: set<PathKey>) {
    && (forall p :: p in roots <==> IsOutermost(p, paths))
    && Distinct(roots) && Ordered(roots, SpellingLess)
  }

  method NormalizeRoots(rawRoots: seq<RawRoot>, home: PathKey, temp: Option<PathKey>) returns (r: Option<seq<PathKey>>)
    requires NamesAreNotEmpty(PathsOf(rawRoots) + {home})
    ensures var raws := if rawRoots == [] then [Resolved(home, true)] else rawRoots;
            && (r.Some? <==> forall i :: 0 <= i < |raws| ==> Usable(raws[i], home, temp))
            && (r.Some? ==> IsOutermostRoots(r.value, PathsOf(raws)))
  {
    hide IsOutermostRoots, Ordered, Distinct, Usable, SpellingLess;
    var raws := if rawRoots == [] then [Resolved(home, true)] else rawRoots;
    assert NamesAreNotEmpty(PathsOf(raws));
    var usable := UsableRoots(raws, home, temp);
    if usable == None {
      return None;
    }
    var roots := usable.value;
    var sorted := SortBy(roots, SpellingLess);
    RootsAreSorted(roots);
    var deduped := KeepOutermostRoots(sorted, PathsOf(raws));
    r := Some(deduped);
  }

  /** Each root once, when all are usable. */
  method UsableRoots(raws: seq<RawRoot>, home: PathKey, temp: Option<PathKey>) returns (r: Option<seq<PathKey>>)
    ensures r.Some? <==> forall i :: 0 <= i < |raws| ==> Usable(raws[i], home, temp)
    ensures r.Some? ==> Distinct(r.value) && forall p :: p in r.value <==> p in PathsOf(raws)
  {
    hide PathsOf, Usable;
    var roots: seq<PathKey> := [];
    NoPaths(raws);
    for n := 0 to |raws|
      invariant forall i :: 0 <= i < n ==> Usable(raws[i], home, temp)
      invariant Distinct(roots)
      invariant forall p :: p in roots <==> p in PathsOf(raws[..n])
    {
      var root := NormalizeRoot(raws[n], home, temp);
      if root == None {
        return None;
      }
      PathsOfStep(raws, n);
      if root.value !in roots {
        roots := roots + [root.value];
      }
    }
    assert raws[..|raws|] == raws;
    return Some(roots);
  }

  lemma RootsAreSorted(roots: seq<PathKey>)
    requires Distinct(roots)
    ensures var sorted := SortBy(roots, SpellingLess);
            Ordered(sorted, SpellingLess) && Distinct(sorted) && forall p :: p in sorted <==> p in roots
  {
    hide SpellingLess, SortBy, Ordered, Distinct;
    SpellingIsWeakOrder();
    SortSorts(roots, SpellingLess);
    SortKeepsMembers(roots, SpellingLess);
    SortKeepsDistinct(roots, SpellingLess);
  }

  lemma NoPaths(raws: seq<RawRoot>)
    ensures PathsOf(raws[..0]) == {}
  {
  }

  lemma PathsOfStep(raws: seq<RawRoot>, n: nat)
    requires n < |raws|
    ensures PathsOf(raws[..n + 1]) == PathsOf(raws[..n]) + (if raws[n].Resolved? then {raws[n].path} else {})
  {
    var a, b := raws[..n], raws[..n + 1];
    assert forall i :: 0 <= i < n ==> a[i] == b[i];
    assert b[n] == raws[n];
  }

  ghost predicate IsFreeRoot(p: PathKey, seen: seq<PathKey>) {
    forall q :: q in seen ==> !Contains(q, p)
  }

  ghost predicate KeepsFreeRoots(kept: seq<PathKey>, seen: seq<PathKey>) {
    && (forall p :: p in kept <==> p in seen && IsFreeRoot(p, seen))
    && Distinct(kept) && Ordered(kept, SpellingLess)
  }

  /** Scanning in spelling order, a root is kept unless one kept before it is the same or contains it. */
  method KeepOutermostRoots(sorted: seq<PathKey>, ghost paths: set<PathKey>) returns (deduped: seq<PathKey>)
    requires Ordered(sorted, SpellingLess) && Distinct(sorted)
    requires NamesAreNotEmpty(paths) && forall p :: p in sorted <==> p in paths
    ensures IsOutermostRoots(deduped, paths)
  {
    hide SpellingLess, KeepsFreeRoots, IsFreeRoot;
    deduped := [];
    NoRoots();
    for n := 0 to |sorted|
      invariant KeepsFreeRoots(deduped, sorted[..n])
    {
      var root := sorted[n];
      var nested := false;
      for k := 0 to |deduped|
        invariant !nested <==> forall l :: 0 <= l < k ==> !(deduped[l] <= root)
      {
        if root == deduped[k] || deduped[k] <= root {
          nested := true;
          break;
        }
      }
      assert sorted[..n + 1] == sorted[..n] + [root];
      RootDecides(sorted[..n], root, deduped, nested, paths);
      if !nested {
        deduped := deduped + [root];
      }
    }
    assert sorted[..|sorted|] == sorted;
    FreeRootsAreOutermost(deduped, sorted, paths);
  }

  lemma NoRoots()
    ensures KeepsFreeRoots([], [])
  {
  }

  lemma FreeRootsAreOutermost(kept: seq<PathKey>, seen: seq<PathKey>, paths: set<PathKey>)
    requires KeepsFreeRoots(kept, seen) && forall p :: p in seen <==> p in paths
    ensures IsOutermostRoots(kept, paths)
  {
  }

  lemma FreeRootAbove(seen: seq<PathKey>, p: PathKey) returns (top: PathKey)
    requires p in seen
    ensures top in seen && IsFreeRoot(top, seen) && top <= p
  {
    var paths := set q | q in seen;
    top := OutermostCovers(p, paths);
  }

  lemma LaterRootsContainNothing(seen: seq<PathKey>, c: PathKey, paths: set<PathKey>)
    requires NamesAreNotEmpty(paths) && c in paths
    requires forall p :: p in seen ==> p in paths && !SpellingLess(c, p)
    ensures forall p :: p in seen ==> !Contains(c, p)
  {
    hide SpellingLess;
    forall p | p in seen ensures !Contains(c, p) {
      if Contains(c, p) {
        AncestorIsLess(c, p);
      }
    }
  }

  lemma AppendRoot(kept: seq<PathKey>, c: PathKey)
    requires Distinct(kept) && Ordered(kept, SpellingLess) && c !in kept
    requires forall p :: p in kept ==> !SpellingLess(c, p)
    ensures Distinct(kept + [c]) && Ordered(kept + [c], SpellingLess)
  {
    hide SpellingLess;
  }

  /** Below something seen is below something kept. */
  lemma FreeOfKept(seen: seq<PathKey>, c: PathKey, kept: seq<PathKey>)
    requires KeepsFreeRoots(kept, seen) && c !in seen
    ensures IsFreeRoot(c, seen) <==> forall l :: 0 <= l < |kept| ==> !(kept[l] <= c)
  {
    hide SpellingLess, Distinct, Ordered;
    if IsFreeRoot(c, seen) {
      forall l | 0 <= l < |kept| ensures !(kept[l] <= c) {
        assert kept[l] in kept;
        assert kept[l] in seen && !Contains(kept[l], c);
        assert kept[l] != c;
      }
    } else {
      var q :| q in seen && Contains(q, c);
      var top := FreeRootAbove(seen, q);
      assert top in kept && top <= c;
    }
  }

  lemma FreeAmongMore(seen: seq<PathKey>, c: PathKey)
    requires forall p :: p in seen ==> !Contains(c, p)
    ensures IsFreeRoot(c, seen + [c]) <==> IsFreeRoot(c, seen)
    ensures forall p :: p in seen ==> (IsFreeRoot(p, seen + [c]) <==> IsFreeRoot(p, seen))
  {
  }

  /** In spelling order no later root contains an earlier one, so a root is below something seen exactly when it
      is below something kept. */
  lemma RootDecides(seen: seq<PathKey>, c: PathKey, kept: seq<PathKey>, nested: bool, paths: set<PathKey>)
    requires KeepsFreeRoots(kept, seen) && NamesAreNotEmpty(paths) && c in paths
    requires forall p :: p in seen ==> p in paths && p != c && !SpellingLess(c, p)
    requires !nested <==> forall l :: 0 <= l < |kept| ==> !(kept[l] <= c)
    ensures KeepsFreeRoots(if nested then kept else kept + [c], seen + [c])
  {
    LaterRootsContainNothing(seen, c, paths);
    FreeOfKept(seen, c, kept);
    FreeAmongMore(seen, c);
    hide SpellingLess, IsFreeRoot, Distinct, Ordered, NamesAreNotEmpty;
    if !nested {
      AppendRoot(kept, c);
    }
  }

  /** The scan by spelling and the scan by depth keep the same paths. */
  lemma ScansAgree(targets: seq<CleanupTargets.Item>, out: seq<CleanupTargets.Item>, roots: seq<PathKey>)
    requires CleanupTargets.IsNormalization(targets, out)
    requires IsOutermostRoots(roots, CleanupTargets.InputKeys(targets))
    ensures forall p :: p in roots <==> exists i :: 0 <= i < |out| && out[i].path == Some(p)
    ensures |roots| == |out|
  {
    forall p ensures p in roots <==> exists i :: 0 <= i < |out| && out[i].path == Some(p) {
      if i :| 0 <= i < |out| && out[i].path == Some(p) {
        assert IsOutermost(p, CleanupTargets.InputKeys(targets));
      }
    }
    var keys := seq(|out|, i requires 0 <= i < |out| => CleanupTargets.KeyOf(out[i]));
    forall i, j | 0 <= i < j < |keys| ensures keys[i] != keys[j] {
      assert out[i].path != out[j].path;
    }
    forall p ensures p in roots <==> p in keys {
      if p in roots {
        var i :| 0 <= i < |out| && out[i].path == Some(p);
        assert keys[i] == p;
      }
      if p in keys {
        var i :| 0 <= i < |keys| && keys[i] == p;
        assert out[i].path == Some(p);
      }
    }
    SameLength(roots, keys);
  }

  lemma SameLength(a: seq<PathKey>, b: seq<PathKey>)
    requires Distinct(a) && Distinct(b) && forall p :: p in a <==> p in b
    ensures |a| == |b|
  {
    DistinctIsCounted(a);
    DistinctIsCounted(b);
    forall p ensures multiset(a)[p] == multiset(b)[p] {
      assert p in a <==> p in multiset(a);
      assert p in b <==> p in multiset(b);
    }
    assert multiset(a) == multiset(b);
    assert |multiset(a)| == |a| && |multiset(b)| == |b|;
  }

  /** A root can be scanned when it resolves to a directory at or below the home, or to the temporary directory. */
  lemma UsableMeans(raw: RawRoot, home: PathKey, temp: Option<PathKey>)
    ensures Usable(raw, home, temp) <==>
            exists p :: raw == Resolved(p, true) && (p == home || Contains(home, p) || temp == Some(p))
  {
    if Usable(raw, home, temp) {
      assert raw == Resolved(raw.path, true);
    }
  }

  /** Every raw root is scanned: it is one of the roots or lies below one. */
  lemma RootIsCovered(raws: seq<RawRoot>, roots: seq<PathKey>, i: int) returns (root: PathKey)
    requires IsOutermostRoots(roots, PathsOf(raws)) && 0 <= i < |raws| && raws[i].Resolved?
    ensures root in roots && root <= raws[i].path
  {
    assert raws[i].path in PathsOf(raws);
    root := OutermostCovers(raws[i].path, PathsOf(raws));
  }

  /** The roots are among the raw ones, and none contains another. */
  lemma RootsAreRaw(raws: seq<RawRoot>, roots: seq<PathKey>, p: PathKey)
    requires IsOutermostRoots(roots, PathsOf(raws)) && p in roots
    ensures exists i :: 0 <= i < |raws| && raws[i].Resolved? && raws[i].path == p
    ensures forall q :: q in roots ==> !Contains(q, p)
  {
    assert p in PathsOf(raws);
  }
}
