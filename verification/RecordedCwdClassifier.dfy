/** Classifying an agent-state entry from the working directories recorded in its session files.
    What the disk answers is a parameter; nothing is assumed about it. */
module RecordedCwdClassifier {
  import opened Wrappers
  import opened JsonBytes
  import opened JsonGrammar
  import opened JsonTheorems
  import opened RecordedCwd
  import opened RecordedCwdTheorems
  import M = CwdMachine

  type Path = seq<string>

  /** A lookup: nothing there, an error, or an entry. */
  datatype Lookup = Absent | Unknown | Entry(isLink: bool, isDir: bool)

  /** What the disk answers while one directory is examined: lstat does not follow a link, stat does,
      recheck is the lookup repeated at the end. volume and plausible are None on an error. */
  datatype Disk = Disk(
    lstat: Path -> Lookup,
    stat: Path -> Lookup,
    volume: Path -> Option<nat>,
    plausible: Path -> Option<bool>,
    recheck: Path -> Lookup)

  datatype Proof = Proven | NotProven | ProofFailed

  // ----- proving that a recorded directory is absent

  /** The first k components name the closest thing above the directory that exists. */
  predicate IsNearest(d: Disk, cwd: Path, k: int) {
    0 <= k <= |cwd| && d.lstat(cwd[..k]).Entry? && forall j :: k < j <= |cwd| ==> d.lstat(cwd[..j]).Absent?
  }

  /** Where the nearest existing ancestor can vouch for what is below it: a directory, possibly through
      a link, on its parent's volume, in a container expected to be available. */
  predicate Vouches(d: Disk, ancestor: Path) {
    && (if d.lstat(ancestor).Entry? && d.lstat(ancestor).isLink
        then d.stat(ancestor).Entry? && d.stat(ancestor).isDir
        else d.lstat(ancestor).Entry? && d.lstat(ancestor).isDir)
    && (|ancestor| > 0 ==>
          var parent := ancestor[..|ancestor| - 1];
          d.lstat(parent).Entry? && d.volume(ancestor).Some? && d.volume(ancestor) == d.volume(parent))
    && d.plausible(ancestor) == Some(true)
  }

  /** The directory is gone: something strictly above it exists and vouches for it, everything between is
      absent, and it has not come back. */
  ghost predicate ProvenAbsent(d: Disk, cwd: Path) {
    exists k :: IsNearest(d, cwd, k) && k < |cwd| && Vouches(d, cwd[..k]) && d.recheck(cwd).Absent?
  }

  method AbsenceProven(d: Disk, cwd: Path) returns (proof: Proof)
    ensures proof == Proven <==> ProvenAbsent(d, cwd)
  {
    var k: nat := |cwd|;
    while true
      invariant k <= |cwd| && forall j :: k < j <= |cwd| ==> d.lstat(cwd[..j]).Absent?
      decreases k
    {
      var ancestor := cwd[..k];
      match d.lstat(ancestor) {
        case Entry(isLink, isDir) =>
          assert IsNearest(d, cwd, k);
          OnlyNearest(d, cwd, k);
          proof := ProveBelow(d, cwd, k);
          return;
        case Unknown =>
          NoNearest(d, cwd, k);
          return ProofFailed;
        case Absent =>
      }
      if k == 0 {
        NoNearest(d, cwd, k);
        return NotProven;
      }
      k := k - 1;
    }
  }

  lemma OnlyNearest(d: Disk, cwd: Path, k: nat)
    requires IsNearest(d, cwd, k)
    ensures forall k' :: IsNearest(d, cwd, k') ==> k' == k
  {
  }

  lemma NoNearest(d: Disk, cwd: Path, k: nat)
    requires k <= |cwd| && !d.lstat(cwd[..k]).Entry? && (k == 0 || d.lstat(cwd[..k]).Unknown?)
    requires forall j :: k < j <= |cwd| ==> d.lstat(cwd[..j]).Absent?
    ensures !ProvenAbsent(d, cwd)
  {
  }

  /** Any one of these leaves absence unproven: the directory itself exists or came back, or its nearest existing
      ancestor is no directory (nor a link to one), is the root of another volume than its parent's, or is not expected
      to be there. */
  lemma AnyDoubtPrevents(d: Disk, cwd: Path, k: nat)
    requires IsNearest(d, cwd, k)
    ensures d.lstat(cwd).Entry? || !d.recheck(cwd).Absent? ==> !ProvenAbsent(d, cwd)
    ensures var l := d.lstat(cwd[..k]); !l.isLink && !l.isDir ==> !ProvenAbsent(d, cwd)
    ensures var l := d.lstat(cwd[..k]);
            l.isLink && !(d.stat(cwd[..k]).Entry? && d.stat(cwd[..k]).isDir) ==> !ProvenAbsent(d, cwd)
    ensures k > 0 && (d.volume(cwd[..k]).None? || d.volume(cwd[..k]) != d.volume(cwd[..k - 1])) ==>
              !ProvenAbsent(d, cwd)
    ensures d.plausible(cwd[..k]) != Some(true) ==> !ProvenAbsent(d, cwd)
  {
    OnlyNearest(d, cwd, k);
    assert cwd[..|cwd|] == cwd;
    if k > 0 {
      assert cwd[..k][..k - 1] == cwd[..k - 1];
    }
  }

  /** The disk holds plain directories on one volume, the root among them, and does not change. */
  ghost predicate IsPlainDisk(d: Disk, cwd: Path) {
    && d.lstat([]) == Entry(false, true)
    && (forall k :: 0 <= k <= |cwd| ==> d.lstat(cwd[..k]) == Entry(false, true) || d.lstat(cwd[..k]) == Absent)
    && (forall p :: d.volume(p) == Some(0) && d.plausible(p) == Some(true))
    && (forall j, k :: 0 <= j <= k <= |cwd| && d.lstat(cwd[..k]).Entry? ==> d.lstat(cwd[..j]).Entry?)
    && d.recheck(cwd) == d.lstat(cwd)
  }

  /** On such a disk a directory is proven absent exactly when it is not there. */
  lemma PlainAbsence(d: Disk, cwd: Path)
    requires IsPlainDisk(d, cwd)
    ensures ProvenAbsent(d, cwd) <==> d.lstat(cwd).Absent?
  {
    assert cwd[..|cwd|] == cwd && cwd[..0] == [];
    if d.lstat(cwd).Absent? {
      var k := |cwd|;
      while d.lstat(cwd[..k]).Absent?
        invariant 0 <= k <= |cwd| && forall j :: k < j <= |cwd| ==> d.lstat(cwd[..j]).Absent?
        decreases k
      {
        k := k - 1;
      }
      assert IsNearest(d, cwd, k) && k < |cwd|;
      if k > 0 {
        assert cwd[..k][..k - 1] == cwd[..k - 1];
        assert d.lstat(cwd[..k - 1]).Entry?;
      }
    }
  }

  /** The checks on the nearest existing ancestor, in order. */
  method ProveBelow(d: Disk, cwd: Path, k: nat) returns (proof: Proof)
    requires IsNearest(d, cwd, k)
    ensures proof == Proven <==> k < |cwd| && Vouches(d, cwd[..k]) && d.recheck(cwd).Absent?
  {
    var ancestor := cwd[..k];
    if k == |cwd| {
      return NotProven;
    }
    var info := d.lstat(ancestor);
    if info.isLink {
      info := d.stat(ancestor);
      if !info.Entry? {
        return NotProven;
      }
    }
    if !info.isDir {
      return NotProven;
    }
    if k > 0 {
      var parent := ancestor[..k - 1];
      if !d.lstat(parent).Entry? || d.volume(ancestor).None? || d.volume(parent).None? {
        return ProofFailed;
      }
      if d.volume(ancestor) != d.volume(parent) {
        return NotProven;
      }
    }
    match d.plausible(ancestor) {
      case None => return ProofFailed;
      case Some(plausible) =>
        if !plausible {
          return NotProven;
        }
    }
    match d.recheck(cwd) {
      case Absent => return Proven;
      case Unknown => return ProofFailed;
      case Entry(_, _) => return NotProven;
    }
  }

  // ----- the decision

  datatype EntryClass = Live | Orphaned | Undetermined

  datatype Evidence = Evidence(cwds: seq<string>, unverifiableFiles: seq<string>, unverifiableRecords: nat)

  /** What looking at one recorded directory shows. */
  datatype Finding = Exists | Gone | Unavailable | Unverifiable

  /** The disk's answer for each recorded directory: its path and the state of the disk while it is examined. */
  type World = string -> (Path, Disk)

  ghost function FindingOf(w: World, cwd: string): Finding {
    var (path, d) := w(cwd);
    match d.stat(path)
    case Entry(_, _) => Exists
    case Unknown => Unverifiable
    case Absent => if ProvenAbsent(d, path) then Gone else Unavailable
  }

  /** A directory exists when it can be looked up, through a link or not; it is gone when it cannot and its absence is
      proven; and what cannot be looked up at all is neither. */
  lemma FindingsAre(w: World, cwd: string)
    ensures var (path, d) := w(cwd);
            && (FindingOf(w, cwd) == Exists <==> d.stat(path).Entry?)
            && (FindingOf(w, cwd) == Gone <==> d.stat(path).Absent? && ProvenAbsent(d, path))
            && (FindingOf(w, cwd) == Unverifiable <==> d.stat(path).Unknown?)
  {
    var (path, d) := w(cwd);
    match d.stat(path) {
      case Entry(_, _) =>
      case Unknown =>
      case Absent =>
    }
  }

  /** One Classify run; cancelledAt is the directory before which the context is found cancelled, if any. */
  method Classify(w: World, evidence: Evidence, cancelledAt: Option<nat>) returns (verdict: Option<EntryClass>)
    ensures verdict.None? <==> cancelledAt.Some? && cancelledAt.value < |evidence.cwds|
    ensures verdict == Some(Orphaned) <==>
              && (cancelledAt.Some? ==> cancelledAt.value >= |evidence.cwds|)
              && evidence.cwds != [] && evidence.unverifiableRecords == 0 && evidence.unverifiableFiles == []
              && forall i :: 0 <= i < |evidence.cwds| ==> FindingOf(w, evidence.cwds[i]) == Gone
    ensures verdict == Some(Live) <==>
              && (cancelledAt.Some? ==> cancelledAt.value >= |evidence.cwds|)
              && exists i :: 0 <= i < |evidence.cwds| && FindingOf(w, evidence.cwds[i]) == Exists
  {
    var live, unverifiable, unavailable := false, false, false;
    var i := 0;
    while i < |evidence.cwds|
      invariant 0 <= i <= |evidence.cwds| && (cancelledAt.Some? ==> i <= cancelledAt.value)
      invariant live <==> exists j :: 0 <= j < i && FindingOf(w, evidence.cwds[j]) == Exists
      invariant !live && !unverifiable && !unavailable <==> forall j :: 0 <= j < i ==>
                  FindingOf(w, evidence.cwds[j]) == Gone
    {
      if cancelledAt == Some(i) {
        return None;
      }
      var cwd := evidence.cwds[i];
      var (path, d) := w(cwd);
      match d.stat(path) {
        case Entry(_, _) => live := true;
        case Absent =>
          var proof := AbsenceProven(d, path);
          match proof {
            case ProofFailed => unverifiable := true;
            case Proven =>
            case NotProven => unavailable := true;
          }
        case Unknown => unverifiable := true;
      }
      i := i + 1;
    }
    if live {
      return Some(Live);
    }
    if unverifiable || unavailable || evidence.unverifiableRecords > 0 || |evidence.unverifiableFiles| > 0 {
      return Some(Undetermined);
    }
    if |evidence.cwds| == 0 {
      return Some(Undetermined);
    }
    return Some(Orphaned);
  }

  // ----- gathering the evidence of one entry

  /** A session file: its name, and how its bytes come out of the reader (None: it cannot be opened). */
  datatype SessionFile = SessionFile(name: string, script: Option<seq<Read>>)

  predicate ReadersKeepContract(files: seq<SessionFile>) {
    forall i :: 0 <= i < |files| ==> files[i].script.Some? ==> ReaderContract(files[i].script.value)
  }

  /** The file is read to its end. */
  predicate ReadWhole(file: SessionFile) {
    file.script.Some? && |file.script.value| > 0 && file.script.value[|file.script.value| - 1].end.EndOfFile?
  }

  function FileRecords(file: SessionFile): seq<string>
    requires ReadWhole(file)
  {
    Records(Content(file.script.value))
  }

  /** The first occurrences of the directories, in order. */
  method AddDistinct(known: seq<string>, more: seq<string>) returns (all: seq<string>)
    ensures forall c :: c in all <==> c in known || c in more
    ensures known <= all
  {
    all := known;
    for i := 0 to |more|
      invariant forall c :: c in all <==> c in known || c in more[..i]
      invariant known <= all
    {
      if more[i] !in all {
        all := all + [more[i]];
      }
    }
    assert more[..|more|] == more;
  }

  /** One session file, read to its end if its reader lets it. */
  method ReadFile(decode: M.Decoder, file: SessionFile) returns (result: ReadResult, whole: bool)
    requires file.script.Some? ==> ReaderContract(file.script.value)
    ensures whole <==> ReadWhole(file)
    ensures whole ==> result == Summary(decode, FileRecords(file))
  {
    if file.script.None? {
      return NOTHING, false;
    }
    var status;
    ghost var consumed;
    result, status, consumed := ReadRecordedCwds(decode, file.script.value, None);
    whole := status == Done;
  }

  function FileDirectories(decode: M.Decoder, file: SessionFile): seq<string> {
    if ReadWhole(file) then Summary(decode, FileRecords(file)).cwds else []
  }

  predicate FileVerifiable(decode: M.Decoder, file: SessionFile) {
    ReadWhole(file) && Summary(decode, FileRecords(file)).unverifiableRecords == 0
  }

  predicate IsCertain(evidence: Evidence) {
    evidence.unverifiableFiles == [] && evidence.unverifiableRecords == 0
  }

  ghost predicate AreVerifiable(decode: M.Decoder, files: seq<SessionFile>) {
    forall f :: f in files ==> FileVerifiable(decode, f)
  }

  /** The evidence is certain exactly when every file is verifiable, and then holds exactly the directories they
      record. */
  ghost predicate Covers(decode: M.Decoder, files: seq<SessionFile>, evidence: Evidence) {
    && (IsCertain(evidence) <==> AreVerifiable(decode, files))
    && (IsCertain(evidence) ==>
          forall c :: c in evidence.cwds <==> exists f :: f in files && c in FileDirectories(decode, f))
  }

  /** Everything the files say: each file read whole, or named as unverifiable; the directories and
      the unreadable records of all of them. listing is None when the entry's directory cannot be read. */
  method Gather(decode: M.Decoder, entry: string, listing: Option<seq<SessionFile>>) returns (evidence: Evidence)
    requires listing.Some? ==> ReadersKeepContract(listing.value)
    ensures listing.None? ==> evidence.unverifiableFiles != []
    ensures listing.Some? ==> Covers(decode, listing.value, evidence)
  {
    evidence := Evidence([], [], 0);
    if listing.None? {
      return Evidence([], [entry], 0);
    }
    hide Summary, Records, Content, FileVerifiable, FileDirectories, Covers, ReadWhole;
    var files := listing.value;
    NothingCovered(decode);
    for i := 0 to |files|
      invariant Covers(decode, files[..i], evidence)
    {
      ghost var before := evidence;
      var result, whole := ReadFile(decode, files[i]);
      if !whole {
        evidence := evidence.(unverifiableFiles := evidence.unverifiableFiles + [files[i].name]);
      }
      var all := AddDistinct(evidence.cwds, result.cwds);
      evidence := evidence.(unverifiableRecords := evidence.unverifiableRecords + result.unverifiableRecords,
                            cwds := all);
      CoversNext(decode, files[..i], files[i], before, result, evidence);
      assert files[..i + 1] == files[..i] + [files[i]];
    }
    assert files[..|files|] == files;
  }

  lemma NothingCovered(decode: M.Decoder)
    ensures Covers(decode, [], Evidence([], [], 0))
  {
  }

  lemma CoversNext(decode: M.Decoder, files: seq<SessionFile>, file: SessionFile, before: Evidence,
                   result: ReadResult, after: Evidence)
    requires Covers(decode, files, before)
    requires ReadWhole(file) ==> result == Summary(decode, FileRecords(file))
    requires after.unverifiableFiles == before.unverifiableFiles + (if ReadWhole(file) then [] else [file.name])
    requires after.unverifiableRecords == before.unverifiableRecords + result.unverifiableRecords
    requires forall c :: c in after.cwds <==> c in before.cwds || c in result.cwds
    ensures Covers(decode, files + [file], after)
  {
    hide Summary, Records, Content, ReadWhole;
    assert AreVerifiable(decode, files + [file]) <==> AreVerifiable(decode, files) && FileVerifiable(decode, file);
    assert IsCertain(after) <==> IsCertain(before) && FileVerifiable(decode, file) by {
      hide AreVerifiable;
    }
    if IsCertain(after) {
      forall c ensures c in after.cwds <==> exists f :: f in files + [file] && c in FileDirectories(decode, f) {
        if c in result.cwds {
          assert file in files + [file] && c in FileDirectories(decode, file);
        } else if c in before.cwds {
          var f :| f in files && c in FileDirectories(decode, f);
          assert f in files + [file];
        }
      }
    }
  }

  // ----- the end-to-end guarantee

  /** Every non-blank record of every session file is one JSON object with at most one top-level cwd, which is
      usable and whose directory is proven absent; and some record has one. */
  ghost predicate OrphanEvidenced(decode: M.Decoder, w: World, files: seq<SessionFile>) {
    && (forall f :: f in files ==> ReadWhole(f))
    && (forall f, i :: f in files && ReadWhole(f) && 0 <= i < |FileRecords(f)| ==>
          !IsUnreadable(decode, FileRecords(f)[i]))
    && (forall f, i, cwd ::
          f in files && ReadWhole(f) && 0 <= i < |FileRecords(f)|
          && RecordsDirectory(decode, FileRecords(f)[i], cwd) ==>
            FindingOf(w, cwd) == Gone)
    && (exists f, i, cwd ::
          f in files && ReadWhole(f) && 0 <= i < |FileRecords(f)| && RecordsDirectory(decode, FileRecords(f)[i], cwd))
  }

  lemma OrphanedMeans(decode: M.Decoder, w: World, files: seq<SessionFile>, evidence: Evidence)
    requires Covers(decode, files, evidence)
    requires evidence.cwds != [] && evidence.unverifiableRecords == 0 && evidence.unverifiableFiles == []
    requires forall i :: 0 <= i < |evidence.cwds| ==> FindingOf(w, evidence.cwds[i]) == Gone
    ensures OrphanEvidenced(decode, w, files)
  {
    hide Summary, Records, Content, IsUnreadable, RecordsDirectory, FindingOf;
    forall f | f in files ensures ReadWhole(f) {
      assert FileVerifiable(decode, f);
    }
    forall f, i | f in files && ReadWhole(f) && 0 <= i < |FileRecords(f)|
      ensures !IsUnreadable(decode, FileRecords(f)[i])
    {
      assert FileVerifiable(decode, f);
      CountsUnreadable(decode, FileRecords(f));
      NoneUnreadable(decode, FileRecords(f), i);
    }
    forall f, i, cwd | f in files && ReadWhole(f) && 0 <= i < |FileRecords(f)|
      && RecordsDirectory(decode, FileRecords(f)[i], cwd)
      ensures FindingOf(w, cwd) == Gone
    {
      KeepsDirectories(decode, FileRecords(f), i, cwd);
      assert cwd in FileDirectories(decode, f);
      assert cwd in evidence.cwds;
    }
    var c := evidence.cwds[0];
    assert c in evidence.cwds;
    var f :| f in files && c in FileDirectories(decode, f);
    CountsUnreadable(decode, FileRecords(f));
    assert FileVerifiable(decode, f);
    var i := OnlyDirectories(decode, FileRecords(f), c);
    assert f in files && ReadWhole(f) && 0 <= i < |FileRecords(f)| && RecordsDirectory(decode, FileRecords(f)[i], c);
  }

  /** And the evidence suffices: nothing in it is in doubt, and every directory in it is gone. */
  lemma EvidenceSuffices(decode: M.Decoder, w: World, files: seq<SessionFile>, evidence: Evidence)
    requires Covers(decode, files, evidence) && OrphanEvidenced(decode, w, files)
    ensures evidence.cwds != [] && IsCertain(evidence)
    ensures forall i :: 0 <= i < |evidence.cwds| ==> FindingOf(w, evidence.cwds[i]) == Gone
  {
    hide Summary, Records, Content, IsUnreadable, RecordsDirectory, FindingOf;
    AllVerifiable(decode, w, files);
    var f, i, cwd :| f in files && ReadWhole(f) && 0 <= i < |FileRecords(f)|
      && RecordsDirectory(decode, FileRecords(f)[i], cwd);
    KeepsDirectories(decode, FileRecords(f), i, cwd);
    assert cwd in FileDirectories(decode, f);
    assert cwd in evidence.cwds;
    forall n | 0 <= n < |evidence.cwds| ensures FindingOf(w, evidence.cwds[n]) == Gone {
      var c := evidence.cwds[n];
      assert c in evidence.cwds;
      var g :| g in files && c in FileDirectories(decode, g);
      assert FileVerifiable(decode, g);
      CountsUnreadable(decode, FileRecords(g));
      var k := OnlyDirectories(decode, FileRecords(g), c);
    }
  }

  lemma AllVerifiable(decode: M.Decoder, w: World, files: seq<SessionFile>)
    requires OrphanEvidenced(decode, w, files)
    ensures AreVerifiable(decode, files)
  {
    hide Summary, Records, Content, IsUnreadable, RecordsDirectory, FindingOf;
    forall f | f in files ensures FileVerifiable(decode, f) {
      var records := FileRecords(f);
      forall i | 0 <= i < |records| ensures !IsUnreadable(decode, records[i]) {
      }
      AllReadable(decode, records);
      CountsUnreadable(decode, records);
    }
  }

  /** Gathers an entry's evidence and classifies it: it is called orphaned exactly when the evidence for it is there. */
  method ClassifyEntry(decode: M.Decoder, w: World, entry: string, listing: Option<seq<SessionFile>>)
    returns (verdict: Option<EntryClass>)
    requires listing.Some? ==> ReadersKeepContract(listing.value)
    ensures verdict == Some(Orphaned) <==> listing.Some? && OrphanEvidenced(decode, w, listing.value)
  {
    hide Covers, FindingOf, OrphanEvidenced;
    var evidence := Gather(decode, entry, listing);
    verdict := Classify(w, evidence, None);
    if verdict == Some(Orphaned) {
      OrphanedMeans(decode, w, listing.value, evidence);
    } else if listing.Some? && OrphanEvidenced(decode, w, listing.value) {
      EvidenceSuffices(decode, w, listing.value, evidence);
      assert false;
    }
  }
}
