/** Resolving a path through symbolic links, component by component, with a budget of links. */
module SafeDeletePaths {
  import opened Wrappers

  type Name = string

  /** The components of an absolute path. */
  type Path = seq<Name>

  /** What is at a place: nothing can be said about an Unreadable one. */
  datatype Node = Dir | File | Link(absolute: bool, parts: seq<Name>) | Unreadable

  /** A filesystem, by resolved path; what is not in it is missing. */
  type Tree = map<Path, Node>

  const MAX_LINKS: nat := 255

  predicate IsSkip(n: Name) {
    n == "" || n == "."
  }

  predicate IsPlain(n: Name) {
    !IsSkip(n) && n != ".."
  }

  predicate IsClean(p: Path) {
    forall i :: 0 <= i < |p| ==> IsPlain(p[i])
  }

  function Parent(p: Path): Path {
    if p == [] then [] else p[..|p| - 1]
  }

  /** Where the remaining parts lead from a resolved place, and how many links were followed in all;
      None on an error. */
  function Resolve(t: Tree, at: Path, parts: seq<Name>, links: nat): Option<(Path, nat)>
    requires links <= MAX_LINKS
    decreases MAX_LINKS - links, |parts|
  {
    if parts == [] then Some((at, links))
    else
      var part, rest := parts[0], parts[1..];
      if IsSkip(part) then Resolve(t, at, rest, links)
      else if part == ".." then Resolve(t, Parent(at), rest, links)
      else
        var next := at + [part];
        if next !in t then Resolve(t, next, rest, links)
        else match t[next]
          case Unreadable => None
          case Dir => Resolve(t, next, rest, links)
          case File => if rest != [] then None else Some((next, links))
          case Link(absolute, target) =>
            if links == MAX_LINKS then None
            else Resolve(t, if absolute then [] else at, target + rest, links + 1)
  }

  function Canonical(t: Tree, parts: seq<Name>): Option<Path> {
    match Resolve(t, [], parts, 0)
    case Some((p, _)) => Some(p)
    case None => None
  }

  /** The resolver as it is written: a worklist of parts, the resolved prefix, a link counter. */
  method Canonicalize(t: Tree, path: seq<Name>) returns (r: Option<Path>)
    ensures r == Canonical(t, path)
  {
    var resolved: Path := [];
    var parts := path;
    var links: nat := 0;
    while |parts| > 0
      invariant links <= MAX_LINKS
      invariant Resolve(t, resolved, parts, links) == Resolve(t, [], path, 0)
      decreases MAX_LINKS - links, |parts|
    {
      var part := parts[0];
      parts := parts[1..];
      if IsSkip(part) {
        continue;
      }
      if part == ".." {
        resolved := Parent(resolved);
        continue;
      }
      var next := resolved + [part];
      if next !in t {
        resolved := next;
        continue;
      }
      match t[next] {
        case Unreadable => return None;
        case Dir => resolved := next;
        case File =>
          if |parts| > 0 {
            return None;
          }
          resolved := next;
        case Link(absolute, target) =>
          if links + 1 > MAX_LINKS {
            return None;
          }
          links := links + 1;
          if absolute {
            resolved := [];
          }
          parts := target + parts;
      }
    }
    return Some(resolved);
  }

  // ----- what a resolved path is

  /** No place on the way to p, p included, is a link; only p itself may be something else than a directory. */
  ghost predicate IsSettled(t: Tree, p: Path) {
    forall k :: 0 < k <= |p| && p[..k] in t ==>
      (t[p[..k]].Dir? || (k == |p| && t[p[..k]].File?))
  }

  /** A settled place from which one may go on: a directory, or missing. */
  ghost predicate IsOpen(t: Tree, p: Path) {
    IsSettled(t, p) && (p in t && p != [] ==> t[p].Dir?)
  }

  lemma ParentIsOpen(t: Tree, p: Path)
    requires IsOpen(t, p)
    ensures IsOpen(t, Parent(p))
  {
    if p != [] {
      forall k | 0 < k <= |p| - 1 && Parent(p)[..k] in t ensures t[Parent(p)[..k]].Dir? {
        assert Parent(p)[..k] == p[..k];
      }
      assert |p| > 1 ==> Parent(p)[..|p| - 1] == Parent(p);
    }
  }

  lemma ChildIsOpen(t: Tree, p: Path, n: Name)
    requires IsOpen(t, p) && (p + [n] in t ==> t[p + [n]].Dir? || t[p + [n]].File?)
    ensures IsSettled(t, p + [n])
    ensures (p + [n] in t ==> t[p + [n]].Dir?) ==> IsOpen(t, p + [n])
  {
    var c := p + [n];
    forall k | 0 < k <= |c| && c[..k] in t ensures t[c[..k]].Dir? || (k == |c| && t[c[..k]].File?) {
      if k == |c| {
        assert c[..k] == c;
      } else {
        assert c[..k] == p[..k];
        assert k == |p| ==> p[..k] == p;
      }
    }
  }

  /** Resolving ends in a settled, clean place, and never gives links back. */
  lemma {:induction false} ResolveSettles(t: Tree, at: Path, parts: seq<Name>, links: nat)
    requires links <= MAX_LINKS && IsOpen(t, at) && IsClean(at)
    ensures var r := Resolve(t, at, parts, links);
            r.Some? ==> IsSettled(t, r.value.0) && IsClean(r.value.0) && links <= r.value.1 <= MAX_LINKS
    decreases MAX_LINKS - links, |parts|
  {
    if parts != [] {
      var part, rest := parts[0], parts[1..];
      var next := at + [part];
      if IsSkip(part) {
        ResolveSettles(t, at, rest, links);
      } else if part == ".." {
        ParentIsOpen(t, at);
        ResolveSettles(t, Parent(at), rest, links);
      } else if next !in t || t[next].Dir? {
        ChildIsOpen(t, at, part);
        ResolveSettles(t, next, rest, links);
      } else if t[next].File? {
        ChildIsOpen(t, at, part);
      } else if t[next].Link? && links < MAX_LINKS {
        ResolveSettles(t, if t[next].absolute then [] else at, t[next].parts + rest, links + 1);
      }
    }
  }

  /** Going through plain parts that are settled follows no link. */
  lemma {:induction false} ResolveStraight(t: Tree, at: Path, parts: seq<Name>, links: nat)
    requires links <= MAX_LINKS && IsClean(parts) && IsSettled(t, at + parts)
    ensures Resolve(t, at, parts, links) == Some((at + parts, links))
    decreases |parts|
  {
    if parts == [] {
      assert at + parts == at;
    } else {
      var next, rest := at + [parts[0]], parts[1..];
      assert next + rest == at + parts && (at + parts)[..|next|] == next;
      ResolveStraight(t, next, rest, links);
    }
  }

  /** A resolved path resolves to itself. */
  lemma CanonicalIsIdempotent(t: Tree, path: seq<Name>)
    ensures var r := Canonical(t, path);
            r.Some? ==> Canonical(t, r.value) == r && IsSettled(t, r.value) && IsClean(r.value)
  {
    ResolveSettles(t, [], path, 0);
    var r := Canonical(t, path);
    if r.Some? {
      assert [] + r.value == r.value;
      ResolveStraight(t, [], r.value, 0);
    }
  }

  // ----- splitting a path

  /** Resolving a path goes through the resolution of its front. */
  lemma {:induction false} ResolveConcat(t: Tree, at: Path, a: seq<Name>, b: seq<Name>, links: nat)
    requires links <= MAX_LINKS && Resolve(t, at, a + b, links).Some?
    ensures var middle := Resolve(t, at, a, links);
            middle.Some? && middle.value.1 <= MAX_LINKS
            && Resolve(t, middle.value.0, b, middle.value.1) == Resolve(t, at, a + b, links)
    decreases MAX_LINKS - links, |a|
  {
    if a == [] {
      assert a + b == b;
    } else {
      var part, rest := a[0], a[1..];
      var next := at + [part];
      assert (a + b)[0] == part && (a + b)[1..] == rest + b;
      if IsSkip(part) {
        ResolveConcat(t, at, rest, b, links);
      } else if part == ".." {
        ResolveConcat(t, Parent(at), rest, b, links);
      } else if next !in t || t[next].Dir? {
        ResolveConcat(t, next, rest, b, links);
      } else if t[next].File? {
        assert rest + b == [];
      } else {
        var target := t[next].parts;
        assert target + (rest + b) == (target + rest) + b;
        ResolveConcat(t, if t[next].absolute then [] else at, target + rest, b, links + 1);
      }
    }
  }

  /** Having followed fewer links changes nothing but the count. */
  lemma {:induction false} ResolveWithFewerLinks(t: Tree, at: Path, parts: seq<Name>, links: nat, fewer: nat)
    requires fewer <= links <= MAX_LINKS && Resolve(t, at, parts, links).Some?
    ensures Resolve(t, at, parts, fewer).Some?
            && Resolve(t, at, parts, fewer).value.0 == Resolve(t, at, parts, links).value.0
    decreases MAX_LINKS - links, |parts|
  {
    if parts != [] {
      var part, rest := parts[0], parts[1..];
      var next := at + [part];
      if IsSkip(part) {
        ResolveWithFewerLinks(t, at, rest, links, fewer);
      } else if part == ".." {
        ResolveWithFewerLinks(t, Parent(at), rest, links, fewer);
      } else if next !in t || t[next].Dir? {
        ResolveWithFewerLinks(t, next, rest, links, fewer);
      } else if t[next].Link? {
        ResolveWithFewerLinks(t, if t[next].absolute then [] else at, t[next].parts + rest, links + 1, fewer + 1);
      }
    }
  }

  /** A path that resolves has a parent that resolves to an open place, and resolves like the parent's
      resolution joined with its last name. */
  lemma CanonicalThroughParent(t: Tree, parent: seq<Name>, base: Name)
    requires IsPlain(base) && Canonical(t, parent + [base]).Some?
    ensures Canonical(t, parent).Some?
    ensures var d := Canonical(t, parent).value;
            IsOpen(t, d) && Canonical(t, d + [base]) == Canonical(t, parent + [base])
  {
    ResolveConcat(t, [], parent, [base], 0);
    var (d, links) := Resolve(t, [], parent, 0).value;
    CanonicalIsIdempotent(t, parent);
    assert IsOpen(t, d) by {
      OpenIfMore(t, [], parent, base, 0);
    }
    ResolveWithFewerLinks(t, d, [base], links, 0);
    ResolveFrom(t, d, [base]);
  }

  /** From the root, a settled open place is reached with no link. */
  lemma ResolveFrom(t: Tree, d: Path, more: seq<Name>)
    requires IsClean(d) && IsOpen(t, d)
    ensures Resolve(t, [], d + more, 0) == Resolve(t, d, more, 0)
  {
    assert [] + d == d;
    StraightThen(t, [], d, more, 0);
  }

  lemma {:induction false} StraightThen(t: Tree, at: Path, d: seq<Name>, more: seq<Name>, links: nat)
    requires links <= MAX_LINKS && IsClean(d) && IsOpen(t, at + d)
    ensures Resolve(t, at, d + more, links) == Resolve(t, at + d, more, links)
    decreases |d|
  {
    if d == [] {
      assert d + more == more && at + d == at;
    } else {
      var next, rest := at + [d[0]], d[1..];
      assert next + rest == at + d && (at + d)[..|next|] == next;
      assert (d + more)[0] == d[0] && (d + more)[1..] == rest + more;
      assert next in t ==> t[next].Dir? by {
        assert rest == [] ==> next == at + d;
      }
      StraightThen(t, next, rest, more, links);
    }
  }

  /** A place from which a plain name was taken is open. */
  lemma {:induction false} OpenIfMore(t: Tree, at: Path, parts: seq<Name>, base: Name, links: nat)
    requires links <= MAX_LINKS && IsOpen(t, at) && IsClean(at) && IsPlain(base)
    requires Resolve(t, at, parts + [base], links).Some?
    ensures Resolve(t, at, parts, links).Some? && IsOpen(t, Resolve(t, at, parts, links).value.0)
    decreases MAX_LINKS - links, |parts|
  {
    if parts != [] {
      var part, rest := parts[0], parts[1..];
      var next := at + [part];
      assert (parts + [base])[0] == part && (parts + [base])[1..] == rest + [base];
      if IsSkip(part) {
        OpenIfMore(t, at, rest, base, links);
      } else if part == ".." {
        ParentIsOpen(t, at);
        OpenIfMore(t, Parent(at), rest, base, links);
      } else if next !in t || t[next].Dir? {
        ChildIsOpen(t, at, part);
        OpenIfMore(t, next, rest, base, links);
      } else if t[next].Link? {
        var target := t[next].parts;
        assert target + (rest + [base]) == (target + rest) + [base];
        OpenIfMore(t, if t[next].absolute then [] else at, target + rest, base, links + 1);
      }
    }
  }

  // ----- one entry

  lemma NextPart(t: Tree, d: Path, base: Name, rest: seq<Name>)
    requires IsClean(d) && IsOpen(t, d) && IsPlain(base)
    ensures Resolve(t, [], d + [base] + rest, 0) == Resolve(t, d, [base] + rest, 0)
    ensures ([base] + rest)[0] == base && ([base] + rest)[1..] == rest
  {
    assert d + [base] + rest == d + ([base] + rest);
    ResolveFrom(t, d, [base] + rest);
  }

  /** A link leads where its target leads, taken from the link's own directory unless it is absolute. */
  lemma LinkLeads(t: Tree, d: Path, base: Name, rest: seq<Name>, absolute: bool, target: seq<Name>)
    requires IsClean(d) && IsOpen(t, d) && IsPlain(base) && d + [base] in t && t[d + [base]] == Link(absolute, target)
    requires Canonical(t, d + [base] + rest).Some?
    ensures Canonical(t, d + [base] + rest) == Canonical(t, (if absolute then [] else d) + target + rest)
  {
    NextPart(t, d, base, rest);
    var start: Path := if absolute then [] else d;
    assert Resolve(t, [], d + [base] + rest, 0) == Resolve(t, start, target + rest, 1);
    ResolveWithFewerLinks(t, start, target + rest, 1, 0);
    assert start + target + rest == start + (target + rest);
    ResolveFrom(t, start, target + rest);
  }

  /** An unreadable place leads nowhere, and nothing lies below a file; a directory and a missing place lead on. */
  lemma PlacesLead(t: Tree, d: Path, base: Name, rest: seq<Name>)
    requires IsClean(d) && IsOpen(t, d) && IsPlain(base)
    ensures d + [base] in t && t[d + [base]] == Unreadable ==> Canonical(t, d + [base] + rest) == None
    ensures d + [base] in t && t[d + [base]] == File ==>
              Canonical(t, d + [base] + rest) == if rest == [] then Some(d + [base]) else None
    ensures d + [base] !in t || t[d + [base]] == Dir ==>
              Resolve(t, [], d + [base] + rest, 0) == Resolve(t, d + [base], rest, 0)
  {
    NextPart(t, d, base, rest);
  }
}
