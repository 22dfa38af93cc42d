/** What a removal that passed the gate can and cannot take away. */
module SafeDeleteTheorems {
  import opened Wrappers
  import opened SafeDeletePaths
  import opened SafeDeleteGate

  // ----- removal, as the operating system does it

  /** The operating system's own walk to an existing directory, with its own limit on links. */
  function Walk(t: Tree, at: Path, parts: seq<Name>, links: nat, limit: nat): Option<Path>
    requires links <= limit
    decreases limit - links, |parts|
  {
    if parts == [] then Some(at)
    else
      var part, rest := parts[0], parts[1..];
      if IsSkip(part) then Walk(t, at, rest, links, limit)
      else if part == ".." then Walk(t, Parent(at), rest, links, limit)
      else
        var next := at + [part];
        if next !in t then None
        else match t[next]
          case Unreadable => None
          case File => None
          case Dir => Walk(t, next, rest, links, limit)
          case Link(absolute, target) =>
            if links == limit then None
            else Walk(t, if absolute then [] else at, target + rest, links + 1, limit)
  }

  /** The directory entry that removing a clean path takes away: its last name in the directory its parent
      leads to. The last component is not followed. None when there is no such directory. */
  function RemovalPlace(t: Tree, path: Path, limit: nat): Option<Path> {
    if path == [] then None
    else match Walk(t, [], Parent(path), 0, limit)
      case Some(d) => Some(d + [path[|path| - 1]])
      case None => None
  }

  /** The tree without a place and everything below it; taking away what is missing changes nothing. */
  function Without(t: Tree, place: Path): Tree {
    if place !in t then t else map p | p in t && !(place <= p) :: t[p]
  }

  function AfterRemoval(t: Tree, path: Path, limit: nat): Tree {
    match RemovalPlace(t, path, limit)
    case Some(place) => Without(t, place)
    case None => t
  }

  /** Nothing at the path or on the way to it was taken away. */
  ghost predicate Untouched(before: Tree, after: Tree, p: Path) {
    forall k :: 0 <= k <= |p| && p[..k] in before ==> p[..k] in after && after[p[..k]] == before[p[..k]]
  }

  lemma PrefixOfPrefix(place: Path, p: Path, k: nat)
    requires k <= |p|
    ensures place <= p[..k] ==> place <= p
  {
  }

  lemma UntouchedExactly(t: Tree, place: Path, p: Path)
    ensures Untouched(t, Without(t, place), p) <==> !(place in t && place <= p)
  {
    if place <= p {
      assert p[..|place|] == place;
    }
    forall k | 0 <= k <= |p| {
      PrefixOfPrefix(place, p, k);
    }
  }

  // ----- where a removal happens

  /** Where the operating system arrives, the resolver arrives too. */
  lemma {:induction false} WalkAgrees(t: Tree, at: Path, parts: seq<Name>, links: nat, limit: nat, counted: nat)
    requires links <= limit && counted <= MAX_LINKS
    requires Walk(t, at, parts, links, limit).Some? && Resolve(t, at, parts, counted).Some?
    ensures Resolve(t, at, parts, counted).value.0 == Walk(t, at, parts, links, limit).value
    decreases limit - links, |parts|
  {
    if parts != [] {
      var part, rest := parts[0], parts[1..];
      var next := at + [part];
      if IsSkip(part) {
        WalkAgrees(t, at, rest, links, limit, counted);
      } else if part == ".." {
        WalkAgrees(t, Parent(at), rest, links, limit, counted);
      } else if t[next].Dir? {
        WalkAgrees(t, next, rest, links, limit, counted);
      } else {
        WalkAgrees(t, if t[next].absolute then [] else at, t[next].parts + rest, links + 1, limit, counted + 1);
      }
    }
  }

  ghost predicate IsLinkAt(t: Tree, p: Path) {
    p in t && t[p].Link?
  }

  /** The removed entry sits in the resolved parent. It is the resolved path itself, or a link whose own
      resolution is the resolved path. */
  lemma RemovalPlaceIsCanonical(t: Tree, path: Path, limit: nat)
    requires IsClean(path) && Canonical(t, path).Some? && RemovalPlace(t, path, limit).Some?
    ensures var place := RemovalPlace(t, path, limit).value;
            && place != [] && Canonical(t, Parent(path)) == Some(Parent(place))
            && place == Parent(place) + [path[|path| - 1]]
            && Canonical(t, place) == Canonical(t, path)
            && (!IsLinkAt(t, place) ==> place == Canonical(t, path).value)
  {
    var parent, base := Parent(path), path[|path| - 1];
    assert parent + [base] == path;
    CanonicalThroughParent(t, parent, base);
    WalkAgrees(t, [], parent, 0, limit, 0);
    var d := Canonical(t, parent).value;
    var place := d + [base];
    assert Parent(place) == d;
    CanonicalIsIdempotent(t, parent);
    ResolveFrom(t, d, [base]);
    assert [base][1..] == [];
  }

  lemma SettledHasNoLink(t: Tree, p: Path, place: Path)
    requires IsSettled(t, p) && place <= p && place != []
    ensures !IsLinkAt(t, place)
  {
    assert p[..|place|] == place;
  }

  // ----- the guarantees

  /** A spelled location without the empty names and dots at its end. */
  function Stripped(location: seq<Name>): seq<Name> {
    if location != [] && IsSkip(location[|location| - 1]) then Stripped(location[..|location| - 1]) else location
  }

  /** The location ends in a name, so that it has a directory entry of its own. */
  predicate HasOwnEntry(location: seq<Name>) {
    var named := Stripped(location);
    named != [] && IsPlain(named[|named| - 1])
  }

  /** The directory entry of a spelled location: its last name in the directory the rest leads to. */
  function OwnEntry(t: Tree, location: seq<Name>): Option<Path>
    requires HasOwnEntry(location)
  {
    var named := Stripped(location);
    match Canonical(t, Parent(named))
    case Some(d) => Some(d + [named[|named| - 1]])
    case None => None
  }

  /** A directory or file at or above the directory holding the location's own entry is what is removed. */
  ghost predicate Endangers(t: Tree, path: Path, location: seq<Name>, limit: nat) {
    && RemovalPlace(t, path, limit).Some? && RemovalPlace(t, path, limit).value in t
    && !IsLinkAt(t, RemovalPlace(t, path, limit).value)
    && Canonical(t, path).Some? && Canonical(t, Parent(Stripped(location))).Some?
    && Canonical(t, path).value <= Canonical(t, Parent(Stripped(location))).value
  }

  lemma CleanForms(location: Path)
    requires IsClean(location)
    ensures LexicalClean(location) == location && LexicalParent(location) == Parent(location)
    ensures location != [] ==> LexicalBase(location) == location[|location| - 1]
  {
    CleanIsClean(location);
    if location != [] {
      CleanIsClean(Parent(location));
    }
  }

  lemma {:induction false} CleanIsClean(p: Path)
    requires IsClean(p)
    ensures LexicalClean(p) == p
  {
    if p != [] {
      CleanIsClean(p[..|p| - 1]);
      assert p[..|p| - 1] + [p[|p| - 1]] == p;
    }
  }

  /** Where a location leads, and everything on the way there, is spared. */
  lemma ReferentSpared(t: Tree, ids: Identities, path: Path, location: seq<Name>, limit: nat)
    requires IsClean(path) && Canonical(t, path).Some? && RemovalPlace(t, path, limit).Some?
    requires LocationSpared(t, ids, path, Canonical(t, path).value, location)
    ensures !(RemovalPlace(t, path, limit).value <= Canonical(t, location).value)
  {
    var place, resolved := RemovalPlace(t, path, limit).value, Canonical(t, location).value;
    RemovalPlaceIsCanonical(t, path, limit);
    CanonicalIsIdempotent(t, location);
    var parent := Canonical(t, LexicalParent(location)).value;
    var physical := LexicalClean(parent + [LexicalBase(location)]);
    assert resolved in [location, physical, resolved];
    if place <= resolved {
      SettledHasNoLink(t, resolved, place);
    }
  }

  lemma {:induction false} StrippedLeadsThere(t: Tree, location: seq<Name>)
    requires Canonical(t, location).Some?
    ensures Canonical(t, Stripped(location)) == Canonical(t, location)
  {
    if location != [] && IsSkip(location[|location| - 1]) {
      var front, last := location[..|location| - 1], location[|location| - 1];
      assert front + [last] == location;
      ResolveConcat(t, [], front, [last], 0);
      assert [last][1..] == [];
      StrippedLeadsThere(t, front);
    }
  }

  /** The own entry's directory is resolved, and the entry leads where the location does. */
  lemma OwnEntryLeadsThere(t: Tree, location: seq<Name>)
    requires HasOwnEntry(location) && Canonical(t, location).Some?
    ensures OwnEntry(t, location).Some? && OwnEntry(t, location).value != []
    ensures Canonical(t, Parent(Stripped(location))) == Some(Parent(OwnEntry(t, location).value))
    ensures Canonical(t, OwnEntry(t, location).value) == Canonical(t, location)
  {
    var named := Stripped(location);
    StrippedLeadsThere(t, location);
    assert Parent(named) + [named[|named| - 1]] == named;
    CanonicalThroughParent(t, Parent(named), named[|named| - 1]);
    assert Parent(OwnEntry(t, location).value) == Canonical(t, Parent(named)).value;
  }

  /** What is removed never is the own entry of a spared location. It lies above it exactly when the removed
      path leads to the entry's directory or above it, and is no link. */
  lemma EntryExactly(t: Tree, ids: Identities, path: Path, location: seq<Name>, limit: nat)
    requires IsClean(path) && Canonical(t, path).Some? && RemovalPlace(t, path, limit).Some?
    requires LocationSpared(t, ids, path, Canonical(t, path).value, location) && HasOwnEntry(location)
    ensures OwnEntry(t, location).Some? && Canonical(t, Parent(Stripped(location))).Some?
    ensures var place := RemovalPlace(t, path, limit).value;
            place <= OwnEntry(t, location).value
            <==> !IsLinkAt(t, place) && Canonical(t, path).value <= Canonical(t, Parent(Stripped(location))).value
  {
    OwnEntryLeadsThere(t, location);
    RemovalPlaceIsCanonical(t, path, limit);
    var place, entry := RemovalPlace(t, path, limit).value, OwnEntry(t, location).value;
    NotTheReferent(t, ids, path, location);
    CanonicalIsIdempotent(t, Parent(Stripped(location)));
    var d := Parent(entry);
    assert place != entry;
    assert place <= entry <==> place <= d by {
      assert d + [entry[|entry| - 1]] == entry;
    }
    if place <= d {
      SettledHasNoLink(t, d, place);
    }
  }

  lemma NotTheReferent(t: Tree, ids: Identities, path: Path, location: seq<Name>)
    requires Canonical(t, path).Some?
    requires LocationSpared(t, ids, path, Canonical(t, path).value, location)
    ensures !(Canonical(t, path).value <= Canonical(t, location).value)
  {
    var resolved := Canonical(t, location).value;
    var physical := LexicalClean(Canonical(t, LexicalParent(location)).value + [LexicalBase(location)]);
    assert resolved in [location, physical, resolved];
  }

  /** Whenever a location's parent leads where its lexical parent leads, its own entry is not endangered. */
  lemma EntrySpared(t: Tree, ids: Identities, path: Path, location: seq<Name>, limit: nat)
    requires IsClean(path) && Canonical(t, path).Some?
    requires LocationSpared(t, ids, path, Canonical(t, path).value, location)
    requires location != [] && IsPlain(location[|location| - 1])
    requires Canonical(t, Parent(location)) == Canonical(t, LexicalParent(location))
    ensures HasOwnEntry(location) && !Endangers(t, path, location, limit)
  {
    var parent, base := Canonical(t, Parent(location)).value, location[|location| - 1];
    CanonicalIsIdempotent(t, Parent(location));
    CleanIsClean(parent + [base]);
    assert parent + [base] in [location, parent + [base], Canonical(t, location).value];
  }

  /** A location spelled without dots is never endangered. */
  lemma CleanEntrySpared(t: Tree, ids: Identities, path: Path, location: Path, limit: nat)
    requires IsClean(path) && Canonical(t, path).Some?
    requires LocationSpared(t, ids, path, Canonical(t, path).value, location)
    requires IsClean(location) && location != []
    ensures HasOwnEntry(location) && !Endangers(t, path, location, limit)
  {
    CleanForms(location);
    EntrySpared(t, ids, path, location, limit);
  }

  /** A protected location keeps where it leads and, unless endangered, its own entry. */
  ghost predicate Survives(before: Tree, after: Tree, path: Path, location: seq<Name>, limit: nat) {
    && Canonical(before, location).Some? && Untouched(before, after, Canonical(before, location).value)
    && (HasOwnEntry(location) ==>
          && OwnEntry(before, location).Some?
          && (Untouched(before, after, OwnEntry(before, location).value) <==>
              !Endangers(before, path, location, limit)))
    && (IsClean(location) && location != [] ==> HasOwnEntry(location) && !Endangers(before, path, location, limit))
  }

  /** A removal the gate allows leaves every protected location's referent alone, and all above that. It leaves
      the location's own entry alone, link or not, and all above that, exactly when it does not endanger it,
      and it never endangers the entry of a location spelled without dots. */
  lemma ProtectedSurvives(t: Tree, ids: Identities, home: RawPath, path: RawPath, relocated: seq<seq<Name>>,
                          limit: nat, location: seq<Name>)
    requires Permits(t, ids, home, path, relocated)
    requires IsProtectedLocation(Canonical(t, home.parts).value, relocated, location)
    ensures Survives(t, AfterRemoval(t, path.parts, limit), path.parts, location, limit)
  {
    hide IsHomeLocation;
    assert LocationSpared(t, ids, path.parts, Canonical(t, path.parts).value, location);
    if HasOwnEntry(location) {
      OwnEntryLeadsThere(t, location);
    }
    if IsClean(location) && location != [] {
      CleanEntrySpared(t, ids, path.parts, location, limit);
    }
    match RemovalPlace(t, path.parts, limit)
    case None =>
    case Some(place) =>
      ReferentSpared(t, ids, path.parts, location, limit);
      UntouchedExactly(t, place, Canonical(t, location).value);
      if HasOwnEntry(location) {
        EntryExactly(t, ids, path.parts, location, limit);
        UntouchedExactly(t, place, OwnEntry(t, location).value);
      }
  }

  /** The target is not at or above the location: not as it is spelled, nor where it leads, nor, for a location without
      dots, where its own entry is. */
  ghost predicate IsApart(t: Tree, target: Path, location: seq<Name>) {
    && !(target <= location) && Canonical(t, location).Some? && !(target <= Canonical(t, location).value)
    && (IsClean(location) && location != [] ==>
          HasOwnEntry(location) && OwnEntry(t, location).Some? && !(target <= OwnEntry(t, location).value))
  }

  lemma OwnEntryIsPhysical(t: Tree, location: Path)
    requires IsClean(location) && location != [] && Canonical(t, location).Some?
    ensures HasOwnEntry(location) && OwnEntry(t, location).Some? && Canonical(t, LexicalParent(location)).Some?
    ensures OwnEntry(t, location).value
            == LexicalClean(Canonical(t, LexicalParent(location)).value + [LexicalBase(location)])
  {
    CleanForms(location);
    OwnEntryLeadsThere(t, location);
    CanonicalIsIdempotent(t, Parent(location));
    CleanIsClean(Canonical(t, Parent(location)).value + [location[|location| - 1]]);
  }

  lemma SparedIsApart(t: Tree, ids: Identities, path: Path, canonical: Path, location: seq<Name>)
    requires LocationSpared(t, ids, path, canonical, location)
    ensures IsApart(t, path, location) && IsApart(t, canonical, location)
    ensures ids.compare(Canonical(t, location).value) == Distinct
    ensures IsClean(location) && location != [] ==> ids.compare(OwnEntry(t, location).value) == Distinct
  {
    var resolved := Canonical(t, location).value;
    var physical := LexicalClean(Canonical(t, LexicalParent(location)).value + [LexicalBase(location)]);
    assert location in [location, physical, resolved] && physical in [location, physical, resolved];
    assert resolved in [location, physical, resolved];
    assert forall target :: target in [path, canonical] ==>
             !CoversProtected(target, location) && !CoversProtected(target, physical)
             && !CoversProtected(target, resolved);
    if IsClean(location) && location != [] {
      OwnEntryIsPhysical(t, location);
    }
    hide LexicalClean, LexicalParent, LexicalBase, Canonical, OwnEntry, HasOwnEntry, IsClean, LocationSpared;
    assert path in [path, canonical] && canonical in [path, canonical];
  }

  /** The path the gate allows, as it is spelled and as it resolves, is apart from every protected location; and the
      identity layer found it distinct from where the location leads and from its own entry. */
  lemma PermittedIsApart(t: Tree, ids: Identities, home: RawPath, path: RawPath, relocated: seq<seq<Name>>,
                         location: seq<Name>)
    requires Permits(t, ids, home, path, relocated)
    requires IsProtectedLocation(Canonical(t, home.parts).value, relocated, location)
    ensures IsApart(t, path.parts, location) && IsApart(t, Canonical(t, path.parts).value, location)
    ensures ids.compare(Canonical(t, location).value) == Distinct
    ensures IsClean(location) && location != [] ==> ids.compare(OwnEntry(t, location).value) == Distinct
  {
    var canonical := Canonical(t, path.parts).value;
    assert LocationSpared(t, ids, path.parts, canonical, location) by {
      hide IsHomeLocation, LocationSpared, Canonical;
    }
    hide IsHomeLocation, Permits;
    SparedIsApart(t, ids, path.parts, canonical, location);
  }

  /** A location spelled with a separator at its end is also taken for an entry of its own name inside itself. */
  lemma TrailingSeparator(t: Tree, ids: Identities, path: Path, canonical: Path, location: Path)
    requires IsClean(location) && location != []
    requires LocationSpared(t, ids, path, canonical, location + [""])
    ensures Canonical(t, location).Some?
    ensures var inner := Canonical(t, location).value + [location[|location| - 1]];
            !(path <= inner) && !(canonical <= inner) && ids.compare(inner) == Distinct
  {
    var spelled := location + [""];
    assert spelled[..|location|] == location;
    CleanForms(location);
    assert LexicalBase(spelled) == LexicalBase(location) && LexicalParent(spelled) == location;
    CanonicalIsIdempotent(t, location);
    var inner := Canonical(t, location).value + [location[|location| - 1]];
    CleanIsClean(inner);
    assert inner in [spelled, inner, Canonical(t, spelled).value];
    hide LexicalClean, Canonical, IsClean;
  }

  ghost predicate HasOnlyDirectories(t: Tree) {
    forall p :: p in t ==> t[p].Dir?
  }

  lemma {:induction false} DirectoriesResolve(t: Tree, at: Path, parts: seq<Name>)
    requires HasOnlyDirectories(t)
    ensures Resolve(t, at, parts, 0).Some? && Resolve(t, at, parts, 0).value.1 == 0
    decreases |parts|
  {
    if parts != [] {
      var part, rest := parts[0], parts[1..];
      DirectoriesResolve(t, if IsSkip(part) then at else if part == ".." then Parent(at) else at + [part], rest);
    }
  }

  /** Without links, a path leads where cleaning its spelling says. */
  lemma {:induction false} LexicalWithoutLinks(t: Tree, parts: seq<Name>)
    requires HasOnlyDirectories(t)
    ensures Canonical(t, parts) == Some(LexicalClean(parts))
  {
    if parts != [] {
      var front, last := parts[..|parts| - 1], parts[|parts| - 1];
      assert front + [last] == parts && [last][1..] == [];
      DirectoriesResolve(t, [], parts);
      ResolveConcat(t, [], front, [last], 0);
      DirectoriesResolve(t, [], front);
      LexicalWithoutLinks(t, front);
    }
  }

  const NO_ALIASES := Identities(true, (p: Path) => Distinct)

  lemma HomeLocationsAreClean(p: Path)
    requires IsHomeLocation(p)
    ensures p != [] && IsClean(p)
  {
    if |p| == 1 {
      assert p[0] != "" && p[0] != "." && p[0] != "..";
    } else if |p| == 2 {
      assert p[0] != "" && p[0] != "." && p[0] != ".." && p[1] != "" && p[1] != "." && p[1] != "..";
    }
  }

  lemma PlainSpared(t: Tree, path: Path, location: Path)
    requires HasOnlyDirectories(t) && IsClean(location) && location != []
    ensures LocationSpared(t, NO_ALIASES, path, path, location) <==> !(path <= location)
  {
    CleanForms(location);
    LexicalWithoutLinks(t, location);
    CleanIsClean(location);
    LexicalWithoutLinks(t, Parent(location));
    CleanIsClean(Parent(location));
    hide LexicalClean, LexicalParent, LexicalBase, Canonical;
    assert Parent(location) + [location[|location| - 1]] == location;
    assert location in [location, location, location];
  }

  /** Without links, aliases and relocated homes the gate is this: strictly inside the home, not at or above one of the
      home's locations (anything inside one is eligible), no direct child of the worktree container, no Git metadata
      and no primary repository. */
  lemma PlainTreesExactly(t: Tree, home: Path, path: Path)
    requires HasOnlyDirectories(t) && IsClean(home) && IsClean(path)
    ensures Permits(t, NO_ALIASES, RawPath(true, home), RawPath(true, path), []) <==>
              && home < path && (forall p :: IsHomeLocation(p) ==> !(path <= home + p))
              && Parent(path) != home + ["orca", "workspaces"]
              && ".git" !in path && path + [".git"] !in t
  {
    LexicalWithoutLinks(t, home);
    LexicalWithoutLinks(t, path);
    CleanIsClean(home);
    CleanIsClean(path);
    CleanIsClean(home + WORKSPACES);
    LexicalWithoutLinks(t, home + WORKSPACES);
    forall p | IsHomeLocation(p)
      ensures LocationSpared(t, NO_ALIASES, path, path, home + p) <==> !(path <= home + p)
    {
      HomeLocationsAreClean(p);
      PlainSpared(t, path, home + p);
    }
    hide LexicalClean, LocationSpared, IsHomeLocation, Canonical;
  }

  /** What the gate allows is absolute and clean, under a known home; it does not resolve to a direct child of the
      worktree container, and neither its spelling nor its resolution below the home passes through Git metadata. */
  lemma PermittedIsOrdinary(t: Tree, ids: Identities, home: RawPath, path: RawPath, relocated: seq<seq<Name>>)
    requires Permits(t, ids, home, path, relocated)
    ensures home.absolute && path.absolute && IsClean(path.parts) && ids.candidateKnown
    ensures var root, canonical := Canonical(t, home.parts).value, Canonical(t, path.parts).value;
            && root < canonical && Canonical(t, root + ["orca", "workspaces"]) != Some(Parent(canonical))
            && ".git" !in path.parts && ".git" !in canonical[|root|..]
            && !(canonical + [".git"] in t && t[canonical + [".git"]].Dir?)
  {
    hide IsHomeLocation;
  }

  lemma PlaceInside(t: Tree, root: Path, path: Path, limit: nat)
    requires IsClean(path) && Canonical(t, path).Some? && root < Canonical(t, path).value
    requires RemovalPlace(t, path, limit).Some?
    ensures var place := RemovalPlace(t, path, limit).value;
            Canonical(t, Parent(path)).Some?
            && (root < place <==> (IsLinkAt(t, place) ==> root <= Canonical(t, Parent(path)).value))
  {
    RemovalPlaceIsCanonical(t, path, limit);
    var place := RemovalPlace(t, path, limit).value;
    var d := Parent(place);
    if root < place {
      assert root == place[..|root|] == d[..|root|];
    }
    if root <= d {
      assert root == d[..|root|] == place[..|root|];
    }
  }

  /** What is removed lies strictly inside the home, except that a link is only judged by where it leads:
      a removed link lies inside the home exactly when the directory holding it does. */
  lemma RemovalInsideHome(t: Tree, ids: Identities, home: RawPath, path: RawPath, relocated: seq<seq<Name>>,
                          limit: nat)
    requires Permits(t, ids, home, path, relocated) && RemovalPlace(t, path.parts, limit).Some?
    ensures var root, place := Canonical(t, home.parts).value, RemovalPlace(t, path.parts, limit).value;
            Canonical(t, Parent(path.parts)).Some?
            && (root < place <==> (IsLinkAt(t, place) ==> root <= Canonical(t, Parent(path.parts)).value))
  {
    PlaceInside(t, Canonical(t, home.parts).value, path.parts, limit);
  }

  /** What is removed is no primary repository and lies in no Git metadata, except that a link is only judged
      by its spelling and by where it leads: a removed link lies in Git metadata exactly when the directory
      holding it does. */
  lemma RemovalSparesRepositories(t: Tree, ids: Identities, home: RawPath, path: RawPath, relocated: seq<seq<Name>>,
                                  limit: nat)
    requires Permits(t, ids, home, path, relocated) && RemovalPlace(t, path.parts, limit).Some?
    ensures var root, place := Canonical(t, home.parts).value, RemovalPlace(t, path.parts, limit).value;
            && Canonical(t, Parent(path.parts)).Some?
            && (if IsLinkAt(t, place) then GIT in place <==> GIT in Canonical(t, Parent(path.parts)).value
                else root < place && GIT !in place[|root|..] && !(place + [GIT] in t && t[place + [GIT]].Dir?))
  {
    RemovalPlaceIsCanonical(t, path.parts, limit);
    var place := RemovalPlace(t, path.parts, limit).value;
    assert place == Parent(place) + [path.parts[|path.parts| - 1]];
  }

  // ----- the removal itself

  // ----- the budget of links

  /** n links in a row: "a" leads to "aa", that to "aaa", and so on; the last name is missing. */
  ghost predicate IsChain(t: Tree, n: nat) {
    && (forall k :: 1 <= k <= n ==> [Letters(k)] in t && t[[Letters(k)]] == Link(false, [Letters(k + 1)]))
    && [Letters(n + 1)] !in t
  }

  function Letters(k: nat): (s: Name)
    ensures |s| == k && (k > 0 ==> IsPlain(s))
  {
    var s := seq(k, i => 'a');
    assert k > 0 ==> s[0] == 'a';
    s
  }

  lemma {:induction false} ChainLeads(t: Tree, n: nat, k: nat)
    requires IsChain(t, n) && 1 <= k <= n + 1 && k - 1 <= MAX_LINKS
    ensures Resolve(t, [], [Letters(k)], k - 1) == if n <= 255 then Some(([Letters(n + 1)], n)) else None
    decreases n + 1 - k
  {
    var name := Letters(k);
    assert [] + [name] == [name] && [name][1..] == [];
    if k <= n && k - 1 < MAX_LINKS {
      assert [Letters(k + 1)] + [] == [Letters(k + 1)];
      ChainLeads(t, n, k + 1);
    }
  }

  /** A path is resolved through 255 links in a row and no more. */
  lemma LinksAreLimited(t: Tree, n: nat)
    requires IsChain(t, n)
    ensures Canonical(t, [Letters(1)]) == if n <= 255 then Some([Letters(n + 1)]) else None
  {
    ChainLeads(t, n, 1);
  }

  // ----- a disk

  /** A disk on which paths are removed. limit is how many links the operating system follows in a path. */
  class Disk {
    var tree: Tree
    const limit: nat

    constructor (tree: Tree, limit: nat)
      ensures this.tree == tree && this.limit == limit
    {
      this.tree := tree;
      this.limit := limit;
    }

    /** Removes the path when the gate allows it; otherwise nothing changes. */
    method RemoveAll(ids: Identities, home: RawPath, path: RawPath, relocated: seq<seq<Name>>) returns (v: Verdict)
      modifies this`tree
      ensures v == Allowed <==> Permits(old(tree), ids, home, path, relocated)
      ensures tree == if v == Allowed then AfterRemoval(old(tree), path.parts, limit) else old(tree)
      ensures v == Allowed ==>
                && Canonical(old(tree), home.parts).Some?
                && forall p :: IsHomeLocation(p) ==>
                     Survives(old(tree), tree, path.parts, Canonical(old(tree), home.parts).value + p, limit)
      ensures v == Allowed ==>
                forall location :: location in relocated ==> Survives(old(tree), tree, path.parts, location, limit)
    {
      hide IsHomeLocation, Survives;
      v := Check(tree, ids, home, path, relocated);
      if v == Allowed {
        tree := AfterRemoval(tree, path.parts, limit);
        var root := Canonical(old(tree), home.parts).value;
        forall p | IsHomeLocation(p) ensures Survives(old(tree), tree, path.parts, root + p, limit) {
          ProtectedSurvives(old(tree), ids, home, path, relocated, limit, root + p);
        }
        forall location | location in relocated ensures Survives(old(tree), tree, path.parts, location, limit) {
          ProtectedSurvives(old(tree), ids, home, path, relocated, limit, location);
        }
      }
    }
  }
}
