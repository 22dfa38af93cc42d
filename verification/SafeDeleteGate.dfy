/** The gate every removal passes: Check judges a path, RemoveAll removes it when Check allows. */
module SafeDeleteGate {
  import opened Wrappers
  import opened SafeDeletePaths

  /** A path as it is spelled: its components may be empty, "." or "..". */
  datatype RawPath = RawPath(absolute: bool, parts: seq<Name>)

  datatype Reason =
    | NotClean | HomeUnavailable | NotAbsolute | PathUnavailable | OutsideHome | IdentityUnavailable
    | LocationUnavailable | ProtectedLocation | WorktreeContainer | GitMetadata | PrimaryRepository

  datatype Verdict = Allowed | Refused(reason: Reason)

  /** What comparing directory identities says about one form of a protected location. */
  datatype IdentityAnswer = Distinct | Covered | Failed

  /** The identity layer: whether the candidate's identity is known, and how it compares. */
  datatype Identities = Identities(candidateKnown: bool, compare: Path -> IdentityAnswer)

  // Locations no target can be or contain, relative to the home. What lies inside one stays eligible.
  const USER_CONTENT: seq<Path> := [
    ["Desktop"], ["Documents"], ["Downloads"], ["Pictures"], ["Movies"], ["Music"],
    ["Public"], ["Applications"], ["OneDrive"], ["Dropbox"], ["Google Drive"]]

  const PLATFORM_STATE: seq<Path> := [
    ["Library"], ["Library", "Application Support"], ["Library", "Preferences"],
    ["Library", "Keychains"], ["Library", "Mobile Documents"], ["Library", "CloudStorage"],
    ["Library", "Mail"], ["Library", "Messages"], ["Library", "Containers"],
    ["Library", "Group Containers"], ["Library", "Caches"], ["Library", "Developer"],
    ["AppData"], ["AppData", "Local"], ["AppData", "Roaming"], ["AppData", "LocalLow"]]

  const CREDENTIALS: seq<Path> := [
    [".ssh"], [".gnupg"], [".aws"], [".azure"], [".kube"], [".docker"], [".password-store"],
    [".config"], [".local"], [".local", "bin"], [".local", "share"], [".local", "state"]]

  const TOOL_HOMES: seq<Path> := [
    [".cache"], [".npm"], [".gradle"], [".cargo"], [".rustup"], ["go"], [".pub-cache"],
    [".codex"], [".claude"], [".cursor"], [".codeium"], [".gemini"], [".grok"], [".vscode"]]

  const AGENT_STORES: seq<Path> := [
    [".codex", "worktrees"], [".codex", "sessions"], [".claude", "projects"], [".cursor", "projects"],
    [".grok", "sessions"],
    [".relay"], [".relay", "worktrees"], [".gstack"], [".gstack", "worktrees"],
    [".config", "superpowers"], [".config", "superpowers", "worktrees"],
    ["orca"], ["orca", "workspaces"]]

  const PROTECTED: seq<Path> := USER_CONTENT + PLATFORM_STATE + CREDENTIALS + TOOL_HOMES + AGENT_STORES

  const GIT: Name := ".git"
  const WORKSPACES: Path := ["orca", "workspaces"]

  // ----- the same locations, by their depth below the home

  predicate IsTopLevel(n: Name) {
    || n in {"Desktop", "Documents", "Downloads", "Pictures", "Movies", "Music", "Public", "Applications"}
    || n in {"OneDrive", "Dropbox", "Google Drive", "Library", "AppData"}
    || n in {".ssh", ".gnupg", ".aws", ".azure", ".kube", ".docker", ".password-store", ".config", ".local"}
    || n in {".cache", ".npm", ".gradle", ".cargo", ".rustup", "go", ".pub-cache"}
    || n in {".codex", ".claude", ".cursor", ".codeium", ".gemini", ".grok", ".vscode", ".relay", ".gstack", "orca"}
  }

  predicate IsSecondLevel(parent: Name, n: Name) {
    || (parent == "Library" && n in {"Application Support", "Preferences", "Keychains", "Mobile Documents"})
    || (parent == "Library" && n in {"CloudStorage", "Mail", "Messages", "Containers", "Group Containers"})
    || (parent == "Library" && n in {"Caches", "Developer"})
    || (parent == "AppData" && n in {"Local", "Roaming", "LocalLow"})
    || (parent == ".local" && n in {"bin", "share", "state"})
    || (parent == ".codex" && n in {"worktrees", "sessions"})
    || ((parent == ".claude" || parent == ".cursor") && n == "projects")
    || (parent == ".grok" && n == "sessions")
    || ((parent == ".relay" || parent == ".gstack") && n == "worktrees")
    || (parent == ".config" && n == "superpowers")
    || (parent == "orca" && n == "workspaces")
  }

  /** The path below the home is one of the locations the package protects in every home. */
  predicate IsHomeLocation(p: Path) {
    || (|p| == 1 && IsTopLevel(p[0]))
    || (|p| == 2 && IsSecondLevel(p[0], p[1]))
    || p == [".config", "superpowers", "worktrees"]
  }

  lemma UserContentIsThere(p: Path)
    requires p in USER_CONTENT
    ensures IsHomeLocation(p)
  {
  }

  lemma PlatformStateIsThere(p: Path)
    requires p in PLATFORM_STATE
    ensures IsHomeLocation(p)
  {
  }

  lemma CredentialsAreThere(p: Path)
    requires p in CREDENTIALS
    ensures IsHomeLocation(p)
  {
  }

  lemma ToolHomesAreThere(p: Path)
    requires p in TOOL_HOMES
    ensures IsHomeLocation(p)
  {
  }

  lemma AgentStoresAreThere(p: Path)
    requires p in AGENT_STORES
    ensures IsHomeLocation(p)
  {
  }

  lemma TopLevelIsListed(n: Name)
    requires IsTopLevel(n)
    ensures [n] in USER_CONTENT || [n] in PLATFORM_STATE || [n] in CREDENTIALS || [n] in TOOL_HOMES
            || [n] in AGENT_STORES
  {
  }

  lemma SecondLevelIsListed(parent: Name, n: Name)
    requires IsSecondLevel(parent, n)
    ensures [parent, n] in PLATFORM_STATE || [parent, n] in CREDENTIALS || [parent, n] in AGENT_STORES
  {
  }

  /** The tables hold exactly those locations. */
  lemma TablesAreExact(p: Path)
    ensures p in PROTECTED <==> IsHomeLocation(p)
  {
    if p in USER_CONTENT {
      UserContentIsThere(p);
    } else if p in PLATFORM_STATE {
      PlatformStateIsThere(p);
    } else if p in CREDENTIALS {
      CredentialsAreThere(p);
    } else if p in TOOL_HOMES {
      ToolHomesAreThere(p);
    } else if p in AGENT_STORES {
      AgentStoresAreThere(p);
    }
    hide IsTopLevel, IsSecondLevel;
    if |p| == 1 && IsTopLevel(p[0]) {
      TopLevelIsListed(p[0]);
      assert p == [p[0]];
    }
    if |p| == 2 && IsSecondLevel(p[0], p[1]) {
      SecondLevelIsListed(p[0], p[1]);
      assert p == [p[0], p[1]];
    }
    assert [".config", "superpowers", "worktrees"] in AGENT_STORES;
  }

  // ----- lexical operations on a spelled location

  function LexicalClean(parts: seq<Name>): Path {
    if parts == [] then []
    else
      var front, last := LexicalClean(parts[..|parts| - 1]), parts[|parts| - 1];
      if IsSkip(last) then front else if last == ".." then Parent(front) else front + [last]
  }

  function LexicalParent(location: seq<Name>): Path {
    if location == [] then [] else LexicalClean(location[..|location| - 1])
  }

  function LexicalBase(location: seq<Name>): Name {
    if location == [] then ""
    else if location[|location| - 1] == "" then LexicalBase(location[..|location| - 1])
    else location[|location| - 1]
  }

  /** The target is the protected path or one of its ancestors. */
  predicate CoversProtected(target: Path, form: seq<Name>) {
    target <= form
  }

  // ----- what Check decides

  /** The location resolves, in all its forms, and none of them is covered. */
  predicate LocationSpared(t: Tree, ids: Identities, path: Path, canonical: Path, location: seq<Name>) {
    && Canonical(t, LexicalParent(location)).Some? && Canonical(t, location).Some?
    && var resolved := Canonical(t, location).value;
       var physical := LexicalClean(Canonical(t, LexicalParent(location)).value + [LexicalBase(location)]);
       && (forall form :: form in [location, physical, resolved] ==>
             !CoversProtected(path, form) && !CoversProtected(canonical, form))
       && ids.compare(physical) == Distinct && ids.compare(resolved) == Distinct
  }

  /** The locations under the resolved home, and those relocated by the environment. */
  function Locations(home: Path, relocated: seq<seq<Name>>): seq<seq<Name>> {
    relocated + Under(home, PROTECTED)
  }

  function Under(home: Path, table: seq<Path>): seq<Path> {
    seq(|table|, i requires 0 <= i < |table| => home + table[i])
  }

  lemma UnderIs(home: Path, table: seq<Path>)
    ensures forall p :: p in table ==> home + p in Under(home, table)
    ensures forall q :: q in Under(home, table) ==> exists p :: p in table && q == home + p
  {
    forall p | p in table ensures home + p in Under(home, table) {
      var i :| 0 <= i < |table| && table[i] == p;
      assert Under(home, table)[i] == home + p;
    }
  }

  lemma LocationsAre(home: Path, relocated: seq<seq<Name>>)
    ensures forall p :: IsHomeLocation(p) ==> home + p in Locations(home, relocated)
    ensures forall location :: location in relocated ==> location in Locations(home, relocated)
    ensures forall location :: location in Locations(home, relocated) ==>
              location in relocated || exists p :: IsHomeLocation(p) && location == home + p
  {
    UnderIs(home, PROTECTED);
    hide IsHomeLocation, Under, PROTECTED;
    forall p | IsHomeLocation(p) ensures home + p in Locations(home, relocated) {
      TablesAreExact(p);
    }
    forall location | location in Locations(home, relocated) && location !in relocated
      ensures exists p :: IsHomeLocation(p) && location == home + p
    {
      var p :| p in PROTECTED && location == home + p;
      TablesAreExact(p);
    }
  }

  ghost predicate Permits(t: Tree, ids: Identities, home: RawPath, path: RawPath, relocated: seq<seq<Name>>) {
    && IsClean(path.parts) && path.absolute && home.absolute
    && Canonical(t, home.parts).Some? && Canonical(t, path.parts).Some?
    && var root := Canonical(t, home.parts).value;
       var canonical := Canonical(t, path.parts).value;
       && root < canonical
       && ids.candidateKnown
       && (forall p :: IsHomeLocation(p) ==> LocationSpared(t, ids, path.parts, canonical, root + p))
       && (forall location :: location in relocated ==> LocationSpared(t, ids, path.parts, canonical, location))
       && Canonical(t, root + WORKSPACES).Some? && Parent(canonical) != Canonical(t, root + WORKSPACES).value
       && GIT !in canonical[|root|..] && GIT !in path.parts
       && !(canonical + [GIT] in t && t[canonical + [GIT]].Dir?)
  }

  /** One of the protected locations, in every home or relocated. */
  ghost predicate IsProtectedLocation(home: Path, relocated: seq<seq<Name>>, location: seq<Name>) {
    location in relocated || exists p :: IsHomeLocation(p) && location == home + p
  }

  /** A form of a location: as spelled, where its entry is, or where it leads. */
  predicate IsForm(t: Tree, location: seq<Name>, form: seq<Name>) {
    || form == location || Canonical(t, location) == Some(form)
    || (Canonical(t, LexicalParent(location)).Some?
        && form == LexicalClean(Canonical(t, LexicalParent(location)).value + [LexicalBase(location)]))
  }

  /** What refuses the path for a location: a form that cannot be told or compared, or one that is covered. */
  ghost predicate Explains(reason: Reason, t: Tree, ids: Identities, path: Path, canonical: Path, location: seq<Name>) {
    match reason
    case LocationUnavailable => Canonical(t, LexicalParent(location)).None? || Canonical(t, location).None?
    case IdentityUnavailable => exists form :: IsForm(t, location, form) && ids.compare(form) == Failed
    case ProtectedLocation =>
      exists form :: IsForm(t, location, form) && (path <= form || canonical <= form || ids.compare(form) == Covered)
    case _ => false
  }

  lemma ExplainsKinds(reason: Reason, t: Tree, ids: Identities, path: Path, canonical: Path, location: seq<Name>)
    requires Explains(reason, t, ids, path, canonical, location)
    ensures reason == LocationUnavailable || reason == IdentityUnavailable || reason == ProtectedLocation
  {
  }

  /** What refuses the path once no location does. */
  predicate ExplainsRest(reason: Reason, t: Tree, root: Path, path: Path, canonical: Path) {
    match reason
    case LocationUnavailable => Canonical(t, root + ["orca", "workspaces"]).None?
    case WorktreeContainer => Canonical(t, root + ["orca", "workspaces"]) == Some(Parent(canonical))
    case GitMetadata => ".git" in path || ".git" in canonical
    case PrimaryRepository => canonical + [".git"] in t && t[canonical + [".git"]].Dir?
    case _ => false
  }

  /** What a refusal names is so. */
  ghost predicate IsReason(reason: Reason, t: Tree, ids: Identities, home: RawPath, path: RawPath,
                           relocated: seq<seq<Name>>) {
    var root, canonical := Canonical(t, home.parts), Canonical(t, path.parts);
    match reason
    case NotClean => !IsClean(path.parts)
    case HomeUnavailable => !home.absolute || root.None?
    case NotAbsolute => !path.absolute
    case PathUnavailable => canonical.None?
    case OutsideHome => root.Some? && canonical.Some? && !(root.value < canonical.value)
    case _ =>
      && root.Some? && canonical.Some?
      && ((reason == IdentityUnavailable && !ids.candidateKnown)
          || ExplainsRest(reason, t, root.value, path.parts, canonical.value)
          || exists location :: IsProtectedLocation(root.value, relocated, location)
                                && Explains(reason, t, ids, path.parts, canonical.value, location))
  }

  method CheckLocation(t: Tree, ids: Identities, path: Path, canonical: Path, location: seq<Name>) returns (v: Verdict)
    ensures v == Allowed <==> LocationSpared(t, ids, path, canonical, location)
    ensures v.Refused? ==> Explains(v.reason, t, ids, path, canonical, location)
  {
    var parent := Canonicalize(t, LexicalParent(location));
    if parent.None? {
      return Refused(LocationUnavailable);
    }
    var resolved := Canonicalize(t, location);
    if resolved.None? {
      return Refused(LocationUnavailable);
    }
    var physical := LexicalClean(parent.value + [LexicalBase(location)]);
    assert IsForm(t, location, location) && IsForm(t, location, physical) && IsForm(t, location, resolved.value);
    var covered := AnyCovered([path, canonical], [location, physical, resolved.value]);
    assert [path, canonical][0] == path && [path, canonical][1] == canonical;
    if covered {
      return Refused(ProtectedLocation);
    }
    if ids.compare(physical) == Failed {
      return Refused(IdentityUnavailable);
    }
    if ids.compare(physical) == Covered {
      return Refused(ProtectedLocation);
    }
    if ids.compare(resolved.value) == Failed {
      return Refused(IdentityUnavailable);
    }
    if ids.compare(resolved.value) == Covered {
      return Refused(ProtectedLocation);
    }
    return Allowed;
  }

  /** Every spelling of the target against every form of the location. */
  method AnyCovered(targets: seq<Path>, forms: seq<seq<Name>>) returns (covered: bool)
    ensures !covered <==> forall target, form :: target in targets && form in forms ==> !CoversProtected(target, form)
  {
    for i := 0 to |targets|
      invariant forall target, form :: target in targets[..i] && form in forms ==> !CoversProtected(target, form)
    {
      for k := 0 to |forms|
        invariant forall form :: form in forms[..k] ==> !CoversProtected(targets[i], form)
      {
        if CoversProtected(targets[i], forms[k]) {
          return true;
        }
      }
      assert forms[..|forms|] == forms;
    }
    assert targets[..|targets|] == targets;
    return false;
  }

  method Check(t: Tree, ids: Identities, home: RawPath, path: RawPath, relocated: seq<seq<Name>>) returns (v: Verdict)
    ensures v == Allowed <==> Permits(t, ids, home, path, relocated)
    ensures v.Refused? ==> IsReason(v.reason, t, ids, home, path, relocated)
  {
    hide IsHomeLocation, Locations, LocationSpared, Explains;
    if !IsClean(path.parts) {
      return Refused(NotClean);
    }
    if !home.absolute {
      return Refused(HomeUnavailable);
    }
    var root := Canonicalize(t, home.parts);
    if root.None? {
      return Refused(HomeUnavailable);
    }
    if !path.absolute {
      return Refused(NotAbsolute);
    }
    var canonical := Canonicalize(t, path.parts);
    if canonical.None? {
      return Refused(PathUnavailable);
    }
    // The home is resolved a second time; a resolved path resolves to itself.
    var home2 := Canonicalize(t, root.value);
    CanonicalIsIdempotent(t, home.parts);
    if !(home2.value < canonical.value) {
      return Refused(OutsideHome);
    }
    if !ids.candidateKnown {
      return Refused(IdentityUnavailable);
    }
    LocationsAre(root.value, relocated);
    v := CheckLocations(t, ids, path.parts, canonical.value, Locations(root.value, relocated));
    if v != Allowed {
      ghost var location :| location in Locations(root.value, relocated)
                            && Explains(v.reason, t, ids, path.parts, canonical.value, location);
      ExplainsKinds(v.reason, t, ids, path.parts, canonical.value, location);
      assert IsProtectedLocation(root.value, relocated, location);
      return;
    }
    v := CheckContainerAndGit(t, root.value, path.parts, canonical.value);
  }

  method CheckLocations(t: Tree, ids: Identities, path: Path, canonical: Path, locations: seq<seq<Name>>)
    returns (v: Verdict)
    ensures v == Allowed <==> forall location :: location in locations ==>
              LocationSpared(t, ids, path, canonical, location)
    ensures v.Refused? ==>
              exists location :: location in locations && Explains(v.reason, t, ids, path, canonical, location)
  {
    hide LocationSpared, Explains;
    for i := 0 to |locations|
      invariant forall j :: 0 <= j < i ==> LocationSpared(t, ids, path, canonical, locations[j])
    {
      v := CheckLocation(t, ids, path, canonical, locations[i]);
      if v != Allowed {
        assert locations[i] in locations;
        return;
      }
    }
    return Allowed;
  }

  method CheckContainerAndGit(t: Tree, root: Path, path: Path, canonical: Path) returns (v: Verdict)
    requires root < canonical
    ensures v == Allowed <==>
              && Canonical(t, root + WORKSPACES).Some? && Parent(canonical) != Canonical(t, root + WORKSPACES).value
              && GIT !in canonical[|root|..] && GIT !in path
              && !(canonical + [GIT] in t && t[canonical + [GIT]].Dir?)
    ensures v.Refused? ==> ExplainsRest(v.reason, t, root, path, canonical)
  {
    var orca := Canonicalize(t, root + WORKSPACES);
    if orca.None? {
      return Refused(LocationUnavailable);
    }
    if Parent(canonical) == orca.value {
      return Refused(WorktreeContainer);
    }
    for i := |root| to |canonical|
      invariant GIT !in canonical[|root|..i]
    {
      if canonical[i] == GIT {
        assert canonical[|root|..][i - |root|] == GIT;
        return Refused(GitMetadata);
      }
    }
    assert canonical[|root|..|canonical|] == canonical[|root|..];
    for i := 0 to |path|
      invariant GIT !in path[..i]
    {
      if path[i] == GIT {
        return Refused(GitMetadata);
      }
    }
    assert path[..|path|] == path;
    if canonical + [GIT] in t && t[canonical + [GIT]].Dir? {
      return Refused(PrimaryRepository);
    }
    return Allowed;
  }
}
