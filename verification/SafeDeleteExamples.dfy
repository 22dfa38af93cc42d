/** Trees on which removals pass the gate and take away more than its documentation says. */
module SafeDeleteExamples {
  import opened Wrappers
  import opened SafeDeletePaths
  import opened SafeDeleteGate
  import opened SafeDeleteTheorems

  const HOME := RawPath(true, ["home"])

  // ----- homes in which no protected location exists

  /** The first names below the home of the example trees. */
  predicate IsExampleName(n: Name) {
    n == "data" || n == "l" || n == "r" || n == "s"
  }

  ghost predicate IsExampleHome(t: Tree) {
    && ["home"] in t && t[["home"]] == Dir
    && forall q :: q in t && |q| > 1 && q[0] == "home" ==> IsExampleName(q[1])
  }

  predicate IsOrdinary(p: Path) {
    p != [] && IsClean(p) && !IsExampleName(p[0])
  }

  lemma ProtectedNames(p: Path)
    requires p in PROTECTED
    ensures IsOrdinary(p)
  {
    if p in USER_CONTENT {
      UserContentNames(p);
    } else if p in PLATFORM_STATE {
      PlatformStateNames(p);
    } else if p in CREDENTIALS {
      CredentialNames(p);
    } else if p in TOOL_HOMES {
      ToolHomeNames(p);
    } else {
      AgentStoreNames(p);
    }
  }

  lemma UserContentNames(p: Path)
    requires p in USER_CONTENT
    ensures IsOrdinary(p)
  {
  }

  lemma PlatformStateNames(p: Path)
    requires p in PLATFORM_STATE
    ensures IsOrdinary(p)
  {
  }

  lemma CredentialNames(p: Path)
    requires p in CREDENTIALS
    ensures IsOrdinary(p)
  {
  }

  lemma ToolHomeNames(p: Path)
    requires p in TOOL_HOMES
    ensures IsOrdinary(p)
  {
  }

  lemma AgentStoreNames(p: Path)
    requires p in AGENT_STORES
    ensures IsOrdinary(p)
  {
  }

  lemma MissingBelow(t: Tree, p: Path, k: nat)
    requires IsExampleHome(t) && IsOrdinary(p) && 0 < k <= |p|
    ensures (["home"] + p)[..k + 1] !in t
  {
    var q := ["home"] + p;
    assert q[..k + 1][0] == "home" && q[..k + 1][1] == p[0];
  }

  /** What is missing below the home leads to itself. */
  lemma MissingIsItself(t: Tree, p: Path)
    requires IsExampleHome(t) && IsOrdinary(p)
    ensures Canonical(t, ["home"] + p) == Some(["home"] + p)
  {
    var q := ["home"] + p;
    forall k | 0 < k <= |q| && q[..k] in t ensures t[q[..k]].Dir? {
      if k == 1 {
        assert q[..k] == ["home"];
      } else {
        MissingBelow(t, p, k - 1);
        assert false;
      }
    }
    assert [] + q == q;
    ResolveStraight(t, [], q, 0);
  }

  lemma HomeIsItself(t: Tree)
    requires IsExampleHome(t)
    ensures Canonical(t, ["home"]) == Some(["home"])
  {
    assert [] + ["home"] == ["home"] && ["home"][..1] == ["home"];
    ResolveStraight(t, [], ["home"], 0);
  }

  /** The path neither is the home nor lies above it, and what lies below it has an example name. */
  predicate IsElsewhere(path: Path) {
    path != [] && (path[0] == "home" ==> |path| > 1 && IsExampleName(path[1]))
  }

  lemma ElsewhereCoversNothing(path: Path, p: Path)
    requires IsElsewhere(path) && IsOrdinary(p)
    ensures !CoversProtected(path, ["home"] + p)
  {
    var q := ["home"] + p;
    assert q[0] == "home" && q[1] == p[0];
  }

  lemma OrdinaryParent(t: Tree, p: Path)
    requires IsExampleHome(t) && IsOrdinary(p)
    ensures IsClean(["home"] + p) && Canonical(t, Parent(["home"] + p)) == Some(Parent(["home"] + p))
  {
    assert Parent(["home"] + p) == ["home"] + Parent(p);
    if |p| > 1 {
      MissingIsItself(t, Parent(p));
    } else {
      assert Parent(["home"] + p) == ["home"];
      HomeIsItself(t);
    }
  }

  lemma OrdinaryForms(t: Tree, p: Path)
    requires IsExampleHome(t) && IsOrdinary(p)
    ensures var q := ["home"] + p;
            && Canonical(t, LexicalParent(q)) == Some(Parent(q)) && Canonical(t, q) == Some(q)
            && LexicalClean(Parent(q) + [LexicalBase(q)]) == q
  {
    var q := ["home"] + p;
    OrdinaryParent(t, p);
    MissingIsItself(t, p);
    hide IsExampleHome, IsOrdinary, Canonical;
    CleanForms(q);
    hide LexicalParent, LexicalBase, LexicalClean;
    assert Parent(q) + [q[|q| - 1]] == q;
  }

  lemma OrdinaryLocationSpared(t: Tree, path: Path, canonical: Path, p: Path)
    requires IsExampleHome(t) && IsOrdinary(p) && IsElsewhere(path) && IsElsewhere(canonical)
    ensures LocationSpared(t, NO_ALIASES, path, canonical, ["home"] + p)
  {
    OrdinaryForms(t, p);
    ElsewhereCoversNothing(path, p);
    ElsewhereCoversNothing(canonical, p);
    hide IsExampleHome, IsOrdinary, IsElsewhere, Canonical, LexicalParent, LexicalBase, LexicalClean, CoversProtected;
  }

  ghost predicate AllSpared(t: Tree, path: Path, locations: seq<seq<Name>>) {
    forall location :: location in locations ==>
      LocationSpared(t, NO_ALIASES, path, ["home", "data"], location)
  }

  lemma HomeLocationSpared(t: Tree, path: Path, p: Path)
    requires IsExampleHome(t) && IsElsewhere(path) && IsHomeLocation(p)
    ensures LocationSpared(t, NO_ALIASES, path, ["home", "data"], ["home"] + p)
  {
    hide IsExampleHome, LocationSpared, IsOrdinary;
    assert IsElsewhere(["home", "data"]);
    hide IsElsewhere, IsHomeLocation;
    TablesAreExact(p);
    ProtectedNames(p);
    OrdinaryLocationSpared(t, path, ["home", "data"], p);
  }

  lemma DataIsNoContainer(t: Tree)
    requires IsExampleHome(t)
    ensures Canonical(t, ["home"] + WORKSPACES).Some?
    ensures Parent(["home", "data"]) != Canonical(t, ["home"] + WORKSPACES).value
    ensures ["home"] < ["home", "data"] && GIT !in ["home", "data"][1..]
    ensures ["home", "data"] + [GIT] == ["home", "data", GIT]
  {
    assert IsOrdinary(WORKSPACES);
    MissingIsItself(t, WORKSPACES);
    assert ["home"] + WORKSPACES == ["home", "orca", "workspaces"];
    assert |Parent(["home", "data"])| == 1;
    assert ["home", "data"][1..] == ["data"] && "data"[0] != GIT[0];
  }

  /** With no protected location in its way, the gate is left with the relocated ones. */
  lemma PermittedThere(t: Tree, path: RawPath, relocated: seq<seq<Name>>)
    requires IsExampleHome(t) && path.absolute && IsClean(path.parts) && GIT !in path.parts && IsElsewhere(path.parts)
    requires Canonical(t, path.parts) == Some(["home", "data"]) && ["home", "data", GIT] !in t
    requires AllSpared(t, path.parts, relocated)
    ensures Permits(t, NO_ALIASES, HOME, path, relocated)
  {
    HomeIsItself(t);
    DataIsNoContainer(t);
    hide Resolve, Canonical, IsExampleHome, IsElsewhere, LocationSpared, IsHomeLocation, IsClean, WORKSPACES;
    forall p | IsHomeLocation(p) ensures LocationSpared(t, NO_ALIASES, path.parts, ["home", "data"], ["home"] + p) {
      HomeLocationSpared(t, path.parts, p);
    }
  }

  // ----- single steps of the resolver and of the operating system

  lemma ThroughDir(t: Tree, at: Path, name: Name, rest: seq<Name>, links: nat)
    requires links <= MAX_LINKS && IsPlain(name) && at + [name] in t && t[at + [name]].Dir?
    ensures Resolve(t, at, [name] + rest, links) == Resolve(t, at + [name], rest, links)
  {
    assert ([name] + rest)[1..] == rest;
  }

  lemma ThroughLink(t: Tree, at: Path, name: Name, rest: seq<Name>, links: nat, target: Path)
    requires links < MAX_LINKS && IsPlain(name) && at + [name] in t && t[at + [name]] == Link(true, target)
    ensures Resolve(t, at, [name] + rest, links) == Resolve(t, [], target + rest, links + 1)
  {
    assert ([name] + rest)[1..] == rest;
  }

  lemma ThroughParent(t: Tree, at: Path, rest: seq<Name>, links: nat)
    requires links <= MAX_LINKS
    ensures Resolve(t, at, [".."] + rest, links) == Resolve(t, Parent(at), rest, links)
  {
    assert ([".."] + rest)[1..] == rest;
  }

  /** /home/data is a directory in all example trees. */
  lemma DataLeads(t: Tree, links: nat)
    requires links <= MAX_LINKS && IsExampleHome(t) && ["home", "data"] in t && t[["home", "data"]].Dir?
    ensures Resolve(t, [], ["home", "data"], links) == Some((["home", "data"], links))
  {
    var data: Path := ["home", "data"];
    assert [] + ["home"] == ["home"] && ["home"] + ["data"] == data && data == ["home"] + (["data"] + []);
    hide Resolve;
    ThroughDir(t, [], "home", ["data"] + [], links);
    ThroughDir(t, ["home"], "data", [], links);
    NothingLeft(t, data, links);
  }

  lemma NothingLeft(t: Tree, at: Path, links: nat)
    requires links <= MAX_LINKS
    ensures Resolve(t, at, [], links) == Some((at, links))
  {
  }

  // ----- a link outside the home

  /** /tmp/x is a link to /home/data. */
  const OUTSIDE_TREE: Tree :=
    map[["home"] := Dir, ["home", "data"] := Dir, ["tmp"] := Dir, ["tmp", "x"] := Link(true, ["home", "data"])]

  const OUTSIDE := RawPath(true, ["tmp", "x"])

  ghost predicate HasOutsideLink(t: Tree) {
    && IsExampleHome(t) && ["home", "data"] in t && t[["home", "data"]].Dir? && ["home", "data", GIT] !in t
    && ["tmp"] in t && t[["tmp"]].Dir?
    && ["tmp", "x"] in t && t[["tmp", "x"]] == Link(true, ["home", "data"])
  }

  lemma OutsideTree()
    ensures HasOutsideLink(OUTSIDE_TREE)
  {
    assert |["home", "data", GIT]| == 3;
  }

  lemma OutsideLeads(t: Tree)
    requires HasOutsideLink(t)
    ensures Canonical(t, ["tmp", "x"]) == Some(["home", "data"])
  {
    assert ["tmp", "x"] == ["tmp"] + (["x"] + []) && [] + ["tmp"] == ["tmp"] && ["tmp"] + ["x"] == ["tmp", "x"];
    assert ["home", "data"] + [] == ["home", "data"];
    hide Resolve;
    ThroughDir(t, [], "tmp", ["x"] + [], 0);
    ThroughLink(t, ["tmp"], "x", [], 0, ["home", "data"]);
    DataLeads(t, 1);
  }

  lemma OutsideRemoval(t: Tree)
    requires HasOutsideLink(t)
    ensures RemovalPlace(t, ["tmp", "x"], 40) == Some(["tmp", "x"])
  {
    assert [] + ["tmp"] == ["tmp"] && ["tmp"] + ["x"] == ["tmp", "x"];
    assert Parent(["tmp", "x"]) == ["tmp"] && ["tmp"][1..] == [];
    assert Walk(t, ["tmp"], [], 0, 40) == Some(["tmp"]);
  }

  lemma OutsideIsElsewhere()
    ensures IsClean(["tmp", "x"]) && GIT !in ["tmp", "x"] && IsElsewhere(["tmp", "x"]) && !(["home"] < ["tmp", "x"])
  {
    assert |"home"| != |"tmp"| && ["tmp", "x"][0] == "tmp";
  }

  /** A link outside the home that leads into it passes the gate, and its entry outside is what is removed. */
  lemma LinkOutsideHomePasses()
    ensures Permits(OUTSIDE_TREE, NO_ALIASES, HOME, OUTSIDE, [])
    ensures RemovalPlace(OUTSIDE_TREE, OUTSIDE.parts, 40) == Some(["tmp", "x"])
    ensures !(Canonical(OUTSIDE_TREE, HOME.parts).value < ["tmp", "x"])
  {
    OutsideTree();
    hide Resolve, Walk, Permits, Canonical, RemovalPlace;
    OutsideIsElsewhere();
    OutsideLeads(OUTSIDE_TREE);
    OutsideRemoval(OUTSIDE_TREE);
    HomeIsItself(OUTSIDE_TREE);
    PermittedThere(OUTSIDE_TREE, OUTSIDE, []);
  }

  // ----- a link inside Git metadata

  /** /home/s leads to /home/r/.git, in which k is a link to /home/data. */
  const METADATA_TREE: Tree :=
    map[["home"] := Dir, ["home", "data"] := Dir, ["home", "r"] := Dir, ["home", "r", GIT] := Dir,
        ["home", "s"] := Link(true, ["home", "r", GIT]),
        ["home", "r", GIT, "k"] := Link(true, ["home", "data"])]

  const METADATA := RawPath(true, ["home", "s", "k"])

  ghost predicate HasMetadataLink(t: Tree) {
    && IsExampleHome(t) && ["home", "data"] in t && t[["home", "data"]].Dir? && ["home", "data", GIT] !in t
    && ["home", "r"] in t && t[["home", "r"]].Dir? && ["home", "r", GIT] in t && t[["home", "r", GIT]].Dir?
    && ["home", "s"] in t && t[["home", "s"]] == Link(true, ["home", "r", GIT])
    && ["home", "r", GIT, "k"] in t && t[["home", "r", GIT, "k"]] == Link(true, ["home", "data"])
  }

  lemma MetadataTree()
    ensures HasMetadataLink(METADATA_TREE)
  {
    assert |["home", "data", GIT]| == 3 && ["home", "data", GIT][1] == "data" && ["home", "r", GIT][1] == "r";
    assert ["home", "r", GIT][1] != "data";
  }

  lemma GitLeads(t: Tree, rest: seq<Name>, links: nat)
    requires HasMetadataLink(t) && links <= MAX_LINKS
    ensures Resolve(t, [], ["home", "r", GIT] + rest, links) == Resolve(t, ["home", "r", GIT], rest, links)
  {
    assert [] + ["home"] == ["home"] && ["home"] + ["r"] == ["home", "r"]
      && ["home", "r"] + [GIT] == ["home", "r", GIT];
    assert ["home", "r", GIT] + rest == ["home"] + (["r"] + ([GIT] + rest));
    hide Resolve;
    ThroughDir(t, [], "home", ["r"] + ([GIT] + rest), links);
    ThroughDir(t, ["home"], "r", [GIT] + rest, links);
    ThroughDir(t, ["home", "r"], GIT, rest, links);
  }

  lemma MetadataLeads(t: Tree)
    requires HasMetadataLink(t)
    ensures Canonical(t, ["home", "s", "k"]) == Some(["home", "data"])
  {
    var git: Path := ["home", "r", GIT];
    assert ["home", "s", "k"] == ["home"] + (["s"] + (["k"] + [])) && ["k"] + [] == ["k"];
    assert [] + ["home"] == ["home"] && ["home"] + ["s"] == ["home", "s"] && git + ["k"] == ["home", "r", GIT, "k"];
    assert ["home", "data"] + [] == ["home", "data"];
    hide Resolve;
    ThroughDir(t, [], "home", ["s"] + ["k"], 0);
    ThroughLink(t, ["home"], "s", ["k"], 0, git);
    GitLeads(t, ["k"], 1);
    ThroughLink(t, git, "k", [], 1, ["home", "data"]);
    DataLeads(t, 2);
  }

  lemma MetadataRemoval(t: Tree)
    requires HasMetadataLink(t)
    ensures RemovalPlace(t, ["home", "s", "k"], 40) == Some(["home", "r", GIT, "k"])
  {
    var git: Path := ["home", "r", GIT];
    assert Parent(["home", "s", "k"]) == ["home", "s"] && ["home", "s"][1..] == ["s"] && ["s"][1..] == [];
    assert [] + ["home"] == ["home"] && ["home"] + ["s"] == ["home", "s"];
    assert git + [] == git && git[1..] == ["r", GIT] && ["r", GIT][1..] == [GIT] && [GIT][1..] == [];
    assert ["home"] + ["r"] == ["home", "r"] && ["home", "r"] + [GIT] == git;
    assert Walk(t, git, [], 1, 40) == Some(git);
    assert Walk(t, ["home", "r"], [GIT], 1, 40) == Some(git);
    assert Walk(t, ["home"], ["r", GIT], 1, 40) == Some(git);
    assert Walk(t, [], git, 1, 40) == Some(git);
    assert Walk(t, ["home"], ["s"], 0, 40) == Some(git);
    assert git + ["k"] == ["home", "r", GIT, "k"];
  }

  lemma MetadataIsElsewhere()
    ensures IsClean(["home", "s", "k"]) && GIT !in ["home", "s", "k"] && IsElsewhere(["home", "s", "k"])
    ensures GIT in ["home", "r", GIT, "k"]
  {
    assert |"k"| != |GIT| && |"s"| != |GIT| && "home"[0] != GIT[0];
    assert ["home", "r", GIT, "k"][2] == GIT;
  }

  /** A link inside Git metadata, reached and leading elsewhere without its name, passes and is removed. */
  lemma LinkInGitMetadataPasses()
    ensures Permits(METADATA_TREE, NO_ALIASES, HOME, METADATA, [])
    ensures RemovalPlace(METADATA_TREE, METADATA.parts, 40) == Some(["home", "r", GIT, "k"])
    ensures GIT in ["home", "r", GIT, "k"]
  {
    MetadataTree();
    hide Resolve, Walk, Permits, Canonical, RemovalPlace;
    MetadataIsElsewhere();
    MetadataLeads(METADATA_TREE);
    MetadataRemoval(METADATA_TREE);
    PermittedThere(METADATA_TREE, METADATA, []);
  }

  // ----- a relocated location spelled with dots

  /** The agent home is relocated to /home/l/../cfg, where l leads to /home/data/e; so it is /home/data/cfg, a
      link to /x, and not /home/cfg. */
  const DOTTED_TREE: Tree :=
    map[["home"] := Dir, ["home", "data"] := Dir, ["home", "data", "e"] := Dir, ["x"] := Dir,
        ["home", "l"] := Link(true, ["home", "data", "e"]),
        ["home", "data", "cfg"] := Link(true, ["x"])]

  const DOTTED_LOCATION: seq<Name> := ["home", "l", "..", "cfg"]
  const DOTTED_STORE: seq<Name> := ["home", "cfg", "projects"]
  const DATA := RawPath(true, ["home", "data"])

  ghost predicate HasDottedHome(t: Tree) {
    && IsExampleHome(t) && ["home", "data"] in t && t[["home", "data"]].Dir? && ["home", "data", GIT] !in t
    && ["home", "data", "e"] in t && t[["home", "data", "e"]].Dir? && ["x"] in t && t[["x"]].Dir?
    && ["home", "l"] in t && t[["home", "l"]] == Link(true, ["home", "data", "e"])
    && ["home", "data", "cfg"] in t && t[["home", "data", "cfg"]] == Link(true, ["x"])
  }

  lemma DottedTree()
    ensures HasDottedHome(DOTTED_TREE)
  {
    assert |GIT| == 4 && ["home", "data", GIT][2] == GIT;
    assert ["home", "data", "e"][2] == "e" && ["home", "data", "cfg"][2] == "cfg";
  }

  /** The dotted front leads to /home/data, through the link. */
  lemma DottedParentLeads(t: Tree, more: seq<Name>)
    requires HasDottedHome(t)
    ensures Resolve(t, [], ["home", "l", ".."] + more, 0) == Resolve(t, ["home", "data"], more, 1)
  {
    var e: Path := ["home", "data", "e"];
    var up := [".."] + more;
    assert ["home", "l", ".."] + more == ["home"] + (["l"] + up);
    assert e + up == ["home"] + (["data"] + (["e"] + up)) && Parent(e) == ["home", "data"];
    assert [] + ["home"] == ["home"] && ["home"] + ["l"] == ["home", "l"] && ["home"] + ["data"] == ["home", "data"];
    assert ["home", "data"] + ["e"] == e;
    hide Resolve;
    ThroughDir(t, [], "home", ["l"] + up, 0);
    ThroughLink(t, ["home"], "l", up, 0, e);
    ThroughDir(t, [], "home", ["data"] + (["e"] + up), 1);
    ThroughDir(t, ["home"], "data", ["e"] + up, 1);
    ThroughDir(t, ["home", "data"], "e", up, 1);
    ThroughParent(t, e, more, 1);
  }

  lemma DottedLeads(t: Tree)
    requires HasDottedHome(t)
    ensures Canonical(t, DOTTED_LOCATION) == Some(["x"])
    ensures Canonical(t, ["home", "l", ".."]) == Some(["home", "data"])
  {
    assert ["home", "l", ".."] + [] == ["home", "l", ".."] && ["home", "l", ".."] + ["cfg"] == DOTTED_LOCATION;
    assert ["home", "data"] + ["cfg"] == ["home", "data", "cfg"] && ["cfg"] + [] == ["cfg"];
    assert ["x"] + [] == ["x"] && [] + ["x"] == ["x"];
    hide Resolve;
    DottedParentLeads(t, []);
    NothingLeft(t, ["home", "data"], 1);
    DottedParentLeads(t, ["cfg"]);
    ThroughLink(t, ["home", "data"], "cfg", [], 1, ["x"]);
    ThroughDir(t, [], "x", [], 2);
    NothingLeft(t, ["x"], 2);
  }

  lemma DottedForms()
    ensures LexicalParent(DOTTED_LOCATION) == ["home"] && LexicalBase(DOTTED_LOCATION) == "cfg"
    ensures HasOwnEntry(DOTTED_LOCATION) && Stripped(DOTTED_LOCATION) == DOTTED_LOCATION
    ensures Parent(DOTTED_LOCATION) == ["home", "l", ".."]
  {
    var dots: seq<Name> := ["home", "l", ".."];
    assert DOTTED_LOCATION[..3] == dots && dots[..2] == ["home", "l"] && ["home", "l"][..1] == ["home"];
    assert LexicalClean(["home"]) == ["home"] by {
      assert ["home"][..0] == [];
    }
    assert LexicalClean(["home", "l"]) == ["home", "l"];
    assert LexicalClean(dots) == ["home"];
  }

  lemma DottedLocationSpared(t: Tree)
    requires HasDottedHome(t)
    ensures LocationSpared(t, NO_ALIASES, ["home", "data"], ["home", "data"], DOTTED_LOCATION)
  {
    DottedLeads(t);
    DottedForms();
    HomeIsItself(t);
    var data: Path := ["home", "data"];
    var physical: Path := ["home"] + ["cfg"];
    CleanIsClean(physical);
    assert data[1] == "data" && physical[1] == "cfg" && DOTTED_LOCATION[1] == "l";
    hide Resolve, Canonical, LexicalParent, LexicalBase, LexicalClean, HasDottedHome;
  }

  lemma DottedRemoval(t: Tree)
    requires HasDottedHome(t)
    ensures RemovalPlace(t, ["home", "data"], 40) == Some(["home", "data"])
    ensures OwnEntry(t, DOTTED_LOCATION) == Some(["home", "data", "cfg"])
    ensures Endangers(t, ["home", "data"], DOTTED_LOCATION, 40)
    ensures ["home", "data", "cfg"] !in AfterRemoval(t, ["home", "data"], 40)
  {
    assert ["home", "data"] <= ["home", "data", "cfg"];
    assert Parent(["home", "data"]) == ["home"] && [] + ["home"] == ["home"] && ["home"][1..] == [];
    assert Walk(t, ["home"], [], 0, 40) == Some(["home"]);
    assert ["home"] + ["data"] == ["home", "data"] && ["home", "data"] + ["cfg"] == ["home", "data", "cfg"];
    hide Resolve, Walk;
    DataLeads(t, 0);
    DottedLeads(t);
    DottedForms();
  }

  lemma DottedStoreSpared(t: Tree)
    requires HasDottedHome(t)
    ensures LocationSpared(t, NO_ALIASES, ["home", "data"], ["home", "data"], DOTTED_STORE)
    ensures IsElsewhere(["home", "data"]) && IsClean(["home", "data"]) && GIT !in ["home", "data"]
  {
    hide LocationSpared;
    assert |"data"| == |GIT| && "data"[0] != GIT[0] && "home"[0] != GIT[0];
    assert IsOrdinary(["cfg", "projects"]) && ["home"] + ["cfg", "projects"] == DOTTED_STORE;
    OrdinaryLocationSpared(t, ["home", "data"], ["home", "data"], ["cfg", "projects"]);
  }

  /** A location spelled with dots is judged at a cleaned path it does not lead through; the directory its own
      entry is in passes the gate, and its entry goes with it. */
  lemma DottedEntryIsLost()
    ensures Permits(DOTTED_TREE, NO_ALIASES, HOME, DATA, [DOTTED_LOCATION, DOTTED_STORE])
    ensures RemovalPlace(DOTTED_TREE, DATA.parts, 40) == Some(["home", "data"])
    ensures HasOwnEntry(DOTTED_LOCATION) && Endangers(DOTTED_TREE, DATA.parts, DOTTED_LOCATION, 40)
    ensures OwnEntry(DOTTED_TREE, DOTTED_LOCATION) == Some(["home", "data", "cfg"])
    ensures ["home", "data", "cfg"] in DOTTED_TREE
            && ["home", "data", "cfg"] !in AfterRemoval(DOTTED_TREE, DATA.parts, 40)
  {
    DottedTree();
    DottedForms();
    hide Resolve, Walk, Permits, RemovalPlace, OwnEntry, Endangers, HasOwnEntry, AfterRemoval;
    DottedRemoval(DOTTED_TREE);
    DottedIsPermitted(DOTTED_TREE);
  }

  lemma DottedIsPermitted(t: Tree)
    requires HasDottedHome(t)
    ensures Permits(t, NO_ALIASES, HOME, DATA, [DOTTED_LOCATION, DOTTED_STORE])
  {
    hide Resolve, Permits, LocationSpared, IsExampleHome;
    DataLeads(t, 0);
    DottedLocationSpared(t);
    DottedStoreSpared(t);
    PermittedThere(t, DATA, [DOTTED_LOCATION, DOTTED_STORE]);
  }
}
