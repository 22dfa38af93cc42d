/** Canonical absolute paths as sequences of names, with containment, depth and the order of their spellings. */
module PathKeys {
  import opened Ordering

  type PathKey = seq<string>

  /** The child lies strictly below the parent. */
  predicate Contains(parent: PathKey, child: PathKey) {
    parent < child
  }

  function Depth(p: PathKey): nat {
    |p|
  }

  /** The path as it is written, without the root's own slash. */
  function Spell(p: PathKey): string {
    if p == [] then "" else Spell(p[..|p| - 1]) + "/" + p[|p| - 1]
  }

  function Spelling(p: PathKey): string {
    if p == [] then "/" else Spell(p)
  }

  predicate SpellingLess(a: PathKey, b: PathKey) {
    LexLess(Spelling(a), Spelling(b))
  }

  /** Shallower first, then by spelling. */
  predicate ShallowFirst(a: PathKey, b: PathKey) {
    if Depth(a) == Depth(b) then SpellingLess(a, b) else Depth(a) < Depth(b)
  }

  /** A path is written with a slash before each name, the root as a slash alone. */
  lemma SpellingMeans(p: PathKey, name: string)
    ensures Spelling([]) == "/" && Spelling([name]) == "/" + name
    ensures p != [] ==> Spelling(p + [name]) == Spelling(p) + "/" + name
  {
    assert Spell([name]) == Spell([name][..0]) + "/" + name;
    assert (p + [name])[..|p|] == p;
  }

  lemma {:induction false} SpellExtends(a: PathKey, b: PathKey)
    requires a < b
    ensures Spell(a) < Spell(b) && Spell(b)[|Spell(a)|] == '/'
    decreases |b|
  {
    var front := b[..|b| - 1];
    if a == front {
    } else {
      assert a == front[..|a|];
      SpellExtends(a, front);
    }
  }

  lemma SpellStartsWithSlash(p: PathKey)
    requires p != []
    ensures |Spell(p)| > 0 && Spell(p)[0] == '/'
  {
    assert [] < p;
    SpellExtends([], p);
  }

  /** A path is written before everything below it (names are not empty). */
  lemma AncestorIsLess(a: PathKey, b: PathKey)
    requires a < b && (forall i :: 0 <= i < |b| ==> b[i] != "")
    ensures SpellingLess(a, b) && !SpellingLess(b, a)
  {
    SpellExtends(a, b);
    if a == [] {
      SpellStartsWithSlash(b);
      var front := b[..|b| - 1];
      assert |Spell(b)| > 1 by {
        assert Spell(b) == Spell(front) + "/" + b[|b| - 1];
      }
      assert "/" < Spell(b);
    }
    ProperPrefixIsLess(Spelling(a), Spelling(b));
  }

  /** The ancestors of a path form a chain. */
  lemma AncestorsAreComparable(a: PathKey, b: PathKey, c: PathKey)
    requires Contains(a, c) && Contains(b, c)
    ensures a == b || Contains(a, b) || Contains(b, a)
  {
    if |a| <= |b| {
      assert a == c[..|a|] == b[..|a|];
    } else {
      assert b == c[..|b|] == a[..|b|];
    }
  }

  lemma SpellingIsWeakOrder()
    ensures WeakOrder(SpellingLess)
  {
    forall x, y | SpellingLess(x, y) ensures !SpellingLess(y, x) {
      LexAsymmetric(Spelling(x), Spelling(y));
    }
    forall x, y, z | !SpellingLess(y, x) && !SpellingLess(z, y) ensures !SpellingLess(z, x) {
      LexNotLessTransitive(Spelling(x), Spelling(y), Spelling(z));
    }
  }

  // ----- the outermost of some paths

  /** p is one of the paths and lies below no other. */
  ghost predicate IsOutermost(p: PathKey, paths: set<PathKey>) {
    p in paths && forall q :: q in paths ==> !Contains(q, p)
  }

  /** Every path is one of the outermost ones or lies below one. */
  lemma {:induction false} OutermostCovers(p: PathKey, paths: set<PathKey>) returns (top: PathKey)
    requires p in paths
    ensures IsOutermost(top, paths) && top <= p
    decreases |p|
  {
    if q :| q in paths && Contains(q, p) {
      top := OutermostCovers(q, paths);
    } else {
      top := p;
    }
  }
}
