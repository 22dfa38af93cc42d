/** Indexing session records by worktree, by project and by member, and refreshing them from a cache. */
module ActivityIndex {
  import opened Wrappers
  import opened Ordering

  /** One session file's record; zero stands for a missing time. */
  datatype Record = Record(home: string, worktree: string, project: string, timestamp: nat, modified: nat, size: nat,
                           valid: bool)

  function ActivityOf(r: Record): nat {
    if r.modified > r.timestamp then r.modified else r.timestamp
  }

  datatype Entry = Entry(project: string, count: nat, latest: nat)

  type WorktreeKey = (string, string)

  type MemberKey = (string, string, string)

  predicate IsCounted(r: Record) {
    r.valid && r.worktree != "" && r.project != "" && r.timestamp != 0
  }

  function WorktreeOf(r: Record): WorktreeKey {
    (r.home, r.worktree)
  }

  function ProjectOf(r: Record): WorktreeKey {
    (r.home, r.project)
  }

  function MemberOf(r: Record): MemberKey {
    (r.home, r.worktree, r.project)
  }

  function Later(a: nat, b: nat): nat {
    if b > a then b else a
  }

  // ----- what an index must say

  /** How many counted records have the key. */
  function CountOf<K(==)>(rs: seq<Record>, key: Record -> K, k: K): nat {
    if rs == [] then 0
    else CountOf(rs[..|rs| - 1], key, k) + if IsCounted(rs[|rs| - 1]) && key(rs[|rs| - 1]) == k then 1 else 0
  }

  function LatestOf<K(==)>(rs: seq<Record>, key: Record -> K, k: K): nat {
    if rs == [] then 0
    else if IsCounted(rs[|rs| - 1]) && key(rs[|rs| - 1]) == k
    then Later(LatestOf(rs[..|rs| - 1], key, k), ActivityOf(rs[|rs| - 1]))
    else LatestOf(rs[..|rs| - 1], key, k)
  }

  /** The project of the first counted record with the key. */
  function FirstProject<K(==)>(rs: seq<Record>, key: Record -> K, k: K): string {
    if rs == [] then ""
    else if FirstProject(rs[..|rs| - 1], key, k) != "" then FirstProject(rs[..|rs| - 1], key, k)
    else if IsCounted(rs[|rs| - 1]) && key(rs[|rs| - 1]) == k then rs[|rs| - 1].project
    else ""
  }

  /** A key is indexed exactly when a counted record has it; its entry counts those records, keeps their latest time,
      and names the project of the first. */
  ghost predicate IsIndex<K(!new)>(m: map<K, Entry>, rs: seq<Record>, key: Record -> K) {
    && (forall k :: k in m <==> CountOf(rs, key, k) > 0)
    && forall k :: k in m ==> m[k] == Entry(FirstProject(rs, key, k), CountOf(rs, key, k), LatestOf(rs, key, k))
  }

  function WithRecord<K>(m: map<K, Entry>, k: K, r: Record): map<K, Entry> {
    var before := if k in m then m[k] else Entry("", 0, 0);
    m[k := Entry(if before.project == "" then r.project else before.project, before.count + 1,
                 Later(before.latest, ActivityOf(r)))]
  }

  lemma OneMore<K>(rs: seq<Record>, r: Record, key: Record -> K, k: K)
    ensures CountOf(rs + [r], key, k) == CountOf(rs, key, k) + if IsCounted(r) && key(r) == k then 1 else 0
    ensures LatestOf(rs + [r], key, k) ==
            if IsCounted(r) && key(r) == k then Later(LatestOf(rs, key, k), ActivityOf(r)) else LatestOf(rs, key, k)
    ensures FirstProject(rs + [r], key, k) ==
            if FirstProject(rs, key, k) == "" && IsCounted(r) && key(r) == k then r.project
              else FirstProject(rs, key, k)
    ensures CountOf(rs, key, k) == 0 ==> LatestOf(rs, key, k) == 0 && FirstProject(rs, key, k) == ""
  {
    assert (rs + [r])[..|rs|] == rs;
    NothingIsLatest(rs, key, k);
  }

  lemma {:induction false} NothingIsLatest<K>(rs: seq<Record>, key: Record -> K, k: K)
    ensures CountOf(rs, key, k) == 0 ==> LatestOf(rs, key, k) == 0 && FirstProject(rs, key, k) == ""
  {
    if rs != [] {
      NothingIsLatest(rs[..|rs| - 1], key, k);
    }
  }

  lemma IndexStep<K(!new)>(m: map<K, Entry>, rs: seq<Record>, r: Record, key: Record -> K)
    requires IsIndex(m, rs, key)
    ensures IsIndex(if IsCounted(r) then WithRecord(m, key(r), r) else m, rs + [r], key)
  {
    hide IsCounted, CountOf, LatestOf, FirstProject;
    var now := if IsCounted(r) then WithRecord(m, key(r), r) else m;
    forall k ensures k in now <==> CountOf(rs + [r], key, k) > 0 {
      OneMore(rs, r, key, k);
    }
    forall k | k in now
      ensures now[k] == Entry(FirstProject(rs + [r], key, k), CountOf(rs + [r], key, k), LatestOf(rs + [r], key, k))
    {
      OneMore(rs, r, key, k);
    }
  }

  /** The three indexes, record by record in path order. */
  method Aggregate(rs: seq<Record>)
    returns (worktrees: map<WorktreeKey, Entry>, projects: map<WorktreeKey, Entry>, members: map<MemberKey, Entry>)
    ensures IsIndex(worktrees, rs, WorktreeOf) && IsIndex(projects, rs, ProjectOf) && IsIndex(members, rs, MemberOf)
  {
    hide IsIndex;
    worktrees, projects, members := map[], map[], map[];
    NothingIndexed();
    for n := 0 to |rs|
      invariant IsIndex(worktrees, rs[..n], WorktreeOf) && IsIndex(projects, rs[..n], ProjectOf)
      invariant IsIndex(members, rs[..n], MemberOf)
    {
      var r := rs[n];
      assert rs[..n + 1] == rs[..n] + [r];
      IndexStep(worktrees, rs[..n], r, WorktreeOf);
      IndexStep(projects, rs[..n], r, ProjectOf);
      IndexStep(members, rs[..n], r, MemberOf);
      if !IsCounted(r) {
        continue;
      }
      worktrees := WithRecord(worktrees, WorktreeOf(r), r);
      projects := WithRecord(projects, ProjectOf(r), r);
      members := WithRecord(members, MemberOf(r), r);
    }
    assert rs[..|rs|] == rs;
  }

  lemma NothingIndexed()
    ensures IsIndex<WorktreeKey>(map[], [], WorktreeOf) && IsIndex<WorktreeKey>(map[], [], ProjectOf)
    ensures IsIndex<MemberKey>(map[], [], MemberOf)
  {
  }

  // ----- sums over keys

  function CountIn<K>(m: map<K, Entry>, k: K): nat {
    if k in m then m[k].count else 0
  }

  /** The sum of the counts of the keys. */
  ghost function SumOver<K>(keys: set<K>, m: map<K, Entry>): nat {
    if keys == {} then 0
    else
      var k :| k in keys;
      CountIn(m, k) + SumOver(keys - {k}, m)
  }

  /** The counted records whose key is among the keys, and all counted records. */
  function CountAmong<K(==)>(rs: seq<Record>, key: Record -> K, keys: set<K>): nat {
    if rs == [] then 0
    else CountAmong(rs[..|rs| - 1], key, keys) + if IsCounted(rs[|rs| - 1]) && key(rs[|rs| - 1]) in keys then 1 else 0
  }

  function CountAll(rs: seq<Record>): nat {
    if rs == [] then 0 else CountAll(rs[..|rs| - 1]) + if IsCounted(rs[|rs| - 1]) then 1 else 0
  }

  lemma {:induction false} OneKeyMore<K>(rs: seq<Record>, key: Record -> K, keys: set<K>, k: K)
    requires k in keys
    ensures CountAmong(rs, key, keys) == CountOf(rs, key, k) + CountAmong(rs, key, keys - {k})
  {
    if rs != [] {
      OneKeyMore(rs[..|rs| - 1], key, keys, k);
    }
  }

  lemma {:induction false} NoneAmong<K>(rs: seq<Record>, key: Record -> K)
    ensures CountAmong(rs, key, {}) == 0
  {
    if rs != [] {
      NoneAmong(rs[..|rs| - 1], key);
    }
  }

  /** The records counted for any of the keys, key by key. */
  lemma {:induction false} CountsAddUp<K(!new)>(m: map<K, Entry>, rs: seq<Record>, key: Record -> K, keys: set<K>)
    requires IsIndex(m, rs, key)
    ensures SumOver(keys, m) == CountAmong(rs, key, keys)
    decreases |keys|
  {
    hide CountOf, CountAmong, LatestOf, FirstProject;
    if keys == {} {
      NoneAmong(rs, key);
    } else {
      var k :| k in keys && SumOver(keys, m) == CountIn(m, k) + SumOver(keys - {k}, m);
      CountsAddUp(m, rs, key, keys - {k});
      OneKeyMore(rs, key, keys, k);
      assert CountIn(m, k) == CountOf(rs, key, k);
    }
  }

  lemma {:induction false} CountedHasKey<K>(rs: seq<Record>, key: Record -> K, r: Record)
    requires r in rs && IsCounted(r)
    ensures CountOf(rs, key, key(r)) > 0
  {
    var front := rs[..|rs| - 1];
    assert rs == front + [rs[|rs| - 1]];
    if r in front {
      CountedHasKey(front, key, r);
    }
  }

  lemma {:induction false} AllAmong<K>(rs: seq<Record>, key: Record -> K, keys: set<K>)
    requires forall r :: r in rs && IsCounted(r) ==> key(r) in keys
    ensures CountAmong(rs, key, keys) == CountAll(rs)
  {
    if rs != [] {
      assert rs[|rs| - 1] in rs;
      AllAmong(rs[..|rs| - 1], key, keys);
    }
  }

  /** Every index's session counts sum to the number of counted records. */
  lemma CountsAreComplete<K(!new)>(m: map<K, Entry>, rs: seq<Record>, key: Record -> K)
    requires IsIndex(m, rs, key)
    ensures SumOver(m.Keys, m) == CountAll(rs)
  {
    CountsAddUp(m, rs, key, m.Keys);
    forall r | r in rs && IsCounted(r) ensures key(r) in m.Keys {
      CountedHasKey(rs, key, r);
    }
    AllAmong(rs, key, m.Keys);
  }

  function MembersOf(members: map<MemberKey, Entry>, w: WorktreeKey): set<MemberKey> {
    set m | m in members && (m.0, m.1) == w
  }

  lemma {:induction false} MembersMakeWorktree(rs: seq<Record>, keys: set<MemberKey>, w: WorktreeKey)
    requires forall r :: r in rs && IsCounted(r) ==> (MemberOf(r) in keys <==> WorktreeOf(r) == w)
    ensures CountAmong(rs, MemberOf, keys) == CountOf(rs, WorktreeOf, w)
  {
    if rs != [] {
      assert rs[|rs| - 1] in rs;
      MembersMakeWorktree(rs[..|rs| - 1], keys, w);
    }
  }

  /** A worktree's session count is the sum of its members'. */
  lemma WorktreeCountsItsMembers(worktrees: map<WorktreeKey, Entry>, members: map<MemberKey, Entry>, rs: seq<Record>,
                                 w: WorktreeKey)
    requires IsIndex(worktrees, rs, WorktreeOf) && IsIndex(members, rs, MemberOf) && w in worktrees
    ensures worktrees[w].count == SumOver(MembersOf(members, w), members)
  {
    var keys := MembersOf(members, w);
    CountsAddUp(members, rs, MemberOf, keys);
    forall r | r in rs && IsCounted(r) ensures MemberOf(r) in keys <==> WorktreeOf(r) == w {
      CountedHasKey(rs, MemberOf, r);
    }
    MembersMakeWorktree(rs, keys, w);
  }

  lemma {:induction false} LatestIsReached<K>(rs: seq<Record>, key: Record -> K, k: K)
    ensures forall r :: r in rs && IsCounted(r) && key(r) == k ==> ActivityOf(r) <= LatestOf(rs, key, k)
    ensures CountOf(rs, key, k) > 0 ==> exists r :: r in rs && IsCounted(r) && key(r) == k
                                                    && ActivityOf(r) == LatestOf(rs, key, k)
  {
    hide IsCounted, ActivityOf;
    if rs != [] {
      var front, last := rs[..|rs| - 1], rs[|rs| - 1];
      assert rs == front + [last];
      LatestIsReached(front, key, k);
      NothingIsLatest(front, key, k);
      if CountOf(front, key, k) > 0 {
        var r :| r in front && IsCounted(r) && key(r) == k && ActivityOf(r) == LatestOf(front, key, k);
        assert r in rs;
      }
      assert last in rs;
    }
  }

  /** A worktree's latest session is the latest of its members', and one of them reaches it. */
  lemma WorktreeIsAsLateAsItsMembers(worktrees: map<WorktreeKey, Entry>, members: map<MemberKey, Entry>,
                                     rs: seq<Record>, w: WorktreeKey)
    requires IsIndex(worktrees, rs, WorktreeOf) && IsIndex(members, rs, MemberOf) && w in worktrees
    ensures forall m :: m in MembersOf(members, w) ==> members[m].latest <= worktrees[w].latest
    ensures exists m :: m in MembersOf(members, w) && members[m].latest == worktrees[w].latest
  {
    hide IsCounted, CountOf, LatestOf, ActivityOf, FirstProject;
    LatestIsReached(rs, WorktreeOf, w);
    forall m | m in MembersOf(members, w) ensures members[m].latest <= worktrees[w].latest {
      LatestIsReached(rs, MemberOf, m);
      var r :| r in rs && IsCounted(r) && MemberOf(r) == m && ActivityOf(r) == LatestOf(rs, MemberOf, m);
      assert WorktreeOf(r) == w;
    }
    var r :| r in rs && IsCounted(r) && WorktreeOf(r) == w && ActivityOf(r) == LatestOf(rs, WorktreeOf, w);
    CountedHasKey(rs, MemberOf, r);
    LatestIsReached(rs, MemberOf, MemberOf(r));
    assert MemberOf(r) in MembersOf(members, w);
  }

  // ----- what the indexes say of single records

  /** The record counts: it is valid, names a worktree and a project, and has a time. */
  lemma CountedMeans(r: Record)
    ensures IsCounted(r) <==> r.valid && r.worktree != "" && r.project != "" && r.timestamp != 0
    ensures ActivityOf(r) >= r.timestamp && ActivityOf(r) >= r.modified
    ensures ActivityOf(r) == r.timestamp || ActivityOf(r) == r.modified
  {
  }

  ghost function RecordsWith<K>(rs: seq<Record>, key: Record -> K, k: K): set<int> {
    set i | 0 <= i < |rs| && IsCounted(rs[i]) && key(rs[i]) == k
  }

  lemma {:induction false} CountIsCardinality<K>(rs: seq<Record>, key: Record -> K, k: K)
    ensures CountOf(rs, key, k) == |RecordsWith(rs, key, k)|
  {
    hide IsCounted;
    if rs != [] {
      var last := |rs| - 1;
      CountIsCardinality(rs[..last], key, k);
      assert RecordsWith(rs, key, k) ==
             RecordsWith(rs[..last], key, k) + if IsCounted(rs[last]) && key(rs[last]) == k then {last} else {};
    }
  }

  /** An entry names the project of the first counted record with its key. */
  lemma {:induction false} FirstProjectMeans<K>(rs: seq<Record>, key: Record -> K, k: K, n: nat)
    requires n < |rs| && IsCounted(rs[n]) && key(rs[n]) == k
    requires forall i :: 0 <= i < n ==> !(IsCounted(rs[i]) && key(rs[i]) == k)
    ensures FirstProject(rs, key, k) == rs[n].project
  {
    var front := rs[..|rs| - 1];
    if n < |front| {
      FirstProjectMeans(front, key, k, n);
    } else {
      NoneIsFirst(front, key, k);
    }
  }

  lemma {:induction false} NoneIsFirst<K>(rs: seq<Record>, key: Record -> K, k: K)
    requires forall i :: 0 <= i < |rs| ==> !(IsCounted(rs[i]) && key(rs[i]) == k)
    ensures FirstProject(rs, key, k) == ""
  {
    hide IsCounted;
    if rs != [] {
      NoneIsFirst(rs[..|rs| - 1], key, k);
    }
  }

  /** The record counts and has the home and worktree. */
  predicate IsSession(r: Record, home: string, worktree: string) {
    r.valid && r.home == home && r.worktree == worktree && worktree != "" && r.project != "" && r.timestamp != 0
  }

  /** A worktree is indexed exactly when it has a session; its entry counts the sessions, names the first one's project,
      and has the latest time any of them was written or changed. */
  lemma WorktreeIndexMeans(m: map<WorktreeKey, Entry>, rs: seq<Record>, home: string, worktree: string)
    requires IsIndex(m, rs, WorktreeOf)
    ensures (home, worktree) in m <==> exists i :: 0 <= i < |rs| && IsSession(rs[i], home, worktree)
    ensures (home, worktree) in m ==>
              var e := m[(home, worktree)];
              && e.count == |set i | 0 <= i < |rs| && IsSession(rs[i], home, worktree)|
              && (forall i :: 0 <= i < |rs| && IsSession(rs[i], home, worktree) ==>
                    rs[i].timestamp <= e.latest && rs[i].modified <= e.latest)
              && (exists i :: 0 <= i < |rs| && IsSession(rs[i], home, worktree)
                              && (rs[i].timestamp == e.latest || rs[i].modified == e.latest))
              && (exists i :: 0 <= i < |rs| && IsSession(rs[i], home, worktree) && e.project == rs[i].project
                              && forall j :: 0 <= j < i ==> !IsSession(rs[j], home, worktree))
  {
    var k := (home, worktree);
    hide CountOf, LatestOf, FirstProject, ActivityOf;
    CountIsCardinality(rs, WorktreeOf, k);
    LatestIsReached(rs, WorktreeOf, k);
    forall i | 0 <= i < |rs|
      ensures (IsCounted(rs[i]) && WorktreeOf(rs[i]) == k) <==> IsSession(rs[i], home, worktree)
      ensures rs[i] in rs
    {
    }
    hide IsCounted, IsSession, WorktreeOf;
    assert RecordsWith(rs, WorktreeOf, k) == set i | 0 <= i < |rs| && IsSession(rs[i], home, worktree);
    forall i | 0 <= i < |rs| && IsSession(rs[i], home, worktree) ensures CountOf(rs, WorktreeOf, k) > 0 {
      assert i in RecordsWith(rs, WorktreeOf, k);
    }
    if CountOf(rs, WorktreeOf, k) > 0 {
      var r :| r in rs && IsCounted(r) && WorktreeOf(r) == k && ActivityOf(r) == LatestOf(rs, WorktreeOf, k);
      var i :| 0 <= i < |rs| && rs[i] == r;
      CountedMeans(r);
      assert i in RecordsWith(rs, WorktreeOf, k);
      var n := FirstSession(rs, home, worktree, i);
      FirstProjectMeans(rs, WorktreeOf, k, n);
      forall j | 0 <= j < |rs| && IsSession(rs[j], home, worktree)
        ensures rs[j].timestamp <= m[k].latest && rs[j].modified <= m[k].latest
      {
        CountedMeans(rs[j]);
      }
    }
  }

  lemma {:induction false} FirstSession(rs: seq<Record>, home: string, worktree: string, i: nat) returns (n: nat)
    requires i < |rs| && IsSession(rs[i], home, worktree)
    ensures n < |rs| && IsSession(rs[n], home, worktree)
    ensures forall j :: 0 <= j < n ==> !IsSession(rs[j], home, worktree)
  {
    n := i;
    if j :| 0 <= j < i && IsSession(rs[j], home, worktree) {
      n := FirstSession(rs, home, worktree, j);
    }
  }

  /** Records are grouped by home and worktree, by home and project, and by all three. */
  lemma KeysMean(a: Record, b: Record)
    ensures WorktreeOf(a) == WorktreeOf(b) <==> a.home == b.home && a.worktree == b.worktree
    ensures ProjectOf(a) == ProjectOf(b) <==> a.home == b.home && a.project == b.project
    ensures MemberOf(a) == MemberOf(b) <==> a.home == b.home && a.worktree == b.worktree && a.project == b.project
    ensures WorktreeOf(a) == (a.home, a.worktree) && ProjectOf(a) == (a.home, a.project)
    ensures MemberOf(a) == (a.home, a.worktree, a.project)
  {
  }

  // ----- refreshing

  datatype File = File(path: string, modified: nat, size: nat)

  predicate IsHit(previous: map<string, Record>, f: File, home: string) {
    f.path in previous && previous[f.path].home == home && previous[f.path].modified == f.modified
      && previous[f.path].size == f.size
  }

  /** A cached record whose home, time and size still fit is what reading the file would give. */
  ghost predicate CacheIsTrue(previous: map<string, Record>, files: seq<File>, home: string,
                              read: File -> Option<Record>) {
    forall i :: 0 <= i < |files| && IsHit(previous, files[i], home) ==> read(files[i]) == Some(previous[files[i].path])
  }

  /** The records of a home read from scratch, in order, up to the first that cannot be read. */
  function Scratch(files: seq<File>, read: File -> Option<Record>): (map<string, Record>, bool) {
    if files == [] then (map[], true)
    else
      var (records, ok) := Scratch(files[..|files| - 1], read);
      var last := files[|files| - 1];
      if !ok then (records, false)
      else if read(last) == None then (records, false)
      else (records[last.path := read(last).value], true)
  }

  lemma {:induction false} ScratchStops(files: seq<File>, read: File -> Option<Record>, n: nat)
    requires n <= |files| && !Scratch(files[..n], read).1
    ensures Scratch(files, read) == Scratch(files[..n], read)
  {
    if n < |files| {
      assert files[..|files| - 1][..n] == files[..n];
      ScratchStops(files[..|files| - 1], read, n);
    } else {
      assert files[..n] == files;
    }
  }

  /** Reusing true cached records gives the same as reading every file. */
  method RefreshHome(previous: map<string, Record>, usable: bool, files: seq<File>, home: string,
                     read: File -> Option<Record>)
    returns (records: map<string, Record>, available: bool)
    ensures !usable || CacheIsTrue(previous, files, home, read) ==> (records, available) == Scratch(files, read)
  {
    ghost var holds := !usable || CacheIsTrue(previous, files, home, read);
    records, available := map[], true;
    for n := 0 to |files|
      invariant holds ==> (records, true) == Scratch(files[..n], read)
      invariant available
    {
      var f := files[n];
      assert files[..n + 1][..n] == files[..n];
      if usable && IsHit(previous, f, home) {
        records := records[f.path := previous[f.path]];
        continue;
      }
      var r := read(f);
      if r == None {
        if holds {
          ScratchStops(files, read, n + 1);
        }
        return records, false;
      }
      records := records[f.path := r.value];
    }
    assert files[..|files|] == files;
  }

  // ----- all homes

  /** One home: its session files (None when they cannot be listed), and whether one of its requested roots is a
      directory and its two stores can be read. */
  datatype Home = Home(name: string, files: Option<seq<File>>, rooted: bool, stored: bool)

  /** What reading a file of a home gives. */
  type Reader = (string, File) -> Option<Record>

  function HomeReader(read: Reader, home: string): (r: File -> Option<Record>)
    ensures forall f :: r(f) == read(home, f)
  {
    (f: File) => read(home, f)
  }

  ghost predicate CachesAreTrue(previous: map<string, Record>, homes: seq<Home>, read: Reader) {
    forall h :: h in homes && h.files.Some? ==> CacheIsTrue(previous, h.files.value, h.name, HomeReader(read, h.name))
  }

  /** The records of an available home; None when it is not available. */
  function HomeRecords(h: Home, read: Reader): Option<map<string, Record>> {
    if h.files.None? then None
    else
      var (records, ok) := Scratch(h.files.value, HomeReader(read, h.name));
      if h.rooted && ok && h.stored then Some(records) else None
  }

  /** The records of all available homes read from scratch, and which homes are available. */
  function AllRecords(homes: seq<Home>, read: Reader): (map<string, Record>, seq<bool>) {
    if homes == [] then (map[], [])
    else
      var (records, available) := AllRecords(homes[..|homes| - 1], read);
      match HomeRecords(homes[|homes| - 1], read)
      case None => (records, available + [false])
      case Some(more) => (records + more, available + [true])
  }

  /** All homes in turn; a home that cannot be listed or read contributes nothing. */
  method Refresh(previous: map<string, Record>, usable: bool, homes: seq<Home>, read: Reader)
    returns (records: map<string, Record>, available: seq<bool>)
    ensures !usable || CachesAreTrue(previous, homes, read) ==> (records, available) == AllRecords(homes, read)
  {
    hide Scratch, CacheIsTrue;
    ghost var holds := !usable || CachesAreTrue(previous, homes, read);
    records, available := map[], [];
    for n := 0 to |homes|
      invariant holds ==> (records, available) == AllRecords(homes[..n], read)
    {
      var h := homes[n];
      assert homes[..n + 1][..n] == homes[..n] && h in homes;
      if h.files.None? {
        available := available + [false];
        continue;
      }
      var homeRecords, readable := RefreshHome(previous, usable, h.files.value, h.name, HomeReader(read, h.name));
      if h.rooted && readable && h.stored {
        records := records + homeRecords;
        available := available + [true];
      } else {
        available := available + [false];
      }
    }
    assert homes[..|homes|] == homes;
  }

  /** The paths of the records, each once, in the order of their spellings. */
  ghost predicate IsPathOrder(paths: seq<string>, records: map<string, Record>) {
    && (forall p :: p in paths <==> p in records)
    && Distinct(paths) && Ordered(paths, LexLess)
  }

  function RecordsAt(paths: seq<string>, records: map<string, Record>): seq<Record>
    requires forall p :: p in paths ==> p in records
  {
    seq(|paths|, i requires 0 <= i < |paths| => records[paths[i]])
  }

  method PathOrder(records: map<string, Record>) returns (paths: seq<string>)
    ensures IsPathOrder(paths, records)
  {
    hide LexLess, SortBy, Distinct, Ordered;
    var listed: seq<string> := [];
    var left := records.Keys;
    NoneRepeats();
    while left != {}
      invariant left <= records.Keys && Distinct(listed)
      invariant forall p :: p in listed <==> p in records.Keys - left
      decreases |left|
    {
      var p :| p in left;
      OneMoreDistinct(listed, p);
      listed := listed + [p];
      left := left - {p};
    }
    paths := SortBy(listed, LexLess);
    LexIsWeakOrder();
    SortSorts(listed, LexLess);
    SortKeepsMembers(listed, LexLess);
    SortKeepsDistinct(listed, LexLess);
  }

  lemma NoneRepeats()
    ensures Distinct<string>([])
  {
  }

  lemma OneMoreDistinct(paths: seq<string>, p: string)
    requires Distinct(paths) && p !in paths
    ensures Distinct(paths + [p])
  {
  }

  lemma {:induction false} LexIsTotal(a: string, b: string)
    ensures LexLess(a, b) || LexLess(b, a) || a == b
  {
    if a != "" && b != "" && a[0] == b[0] {
      LexIsTotal(a[1..], b[1..]);
      assert a == [a[0]] + a[1..] && b == [b[0]] + b[1..];
    }
  }

  /** The last path in order is the greatest. */
  lemma LastPath(a: seq<string>, b: seq<string>)
    requires a != [] && b != [] && Distinct(a) && Distinct(b) && Ordered(a, LexLess) && Ordered(b, LexLess)
    requires forall p :: p in a <==> p in b
    ensures a[|a| - 1] == b[|b| - 1]
  {
    var x, y := a[|a| - 1], b[|b| - 1];
    assert x in b && y in a;
    LexIsTotal(x, y);
  }

  /** There is one order only. */
  lemma {:induction false} PathOrderIsUnique(a: seq<string>, b: seq<string>)
    requires Distinct(a) && Distinct(b) && Ordered(a, LexLess) && Ordered(b, LexLess)
    requires forall p :: p in a <==> p in b
    ensures a == b
  {
    SameEmptiness(a, b);
    if a != [] {
      LastPath(a, b);
      hide LexLess;
      var front, back := a[..|a| - 1], b[..|b| - 1];
      forall p ensures p in front <==> p in back {
        WithoutLast(a, p);
        WithoutLast(b, p);
      }
      PathOrderIsUnique(front, back);
      assert a == front + [a[|a| - 1]] && b == back + [a[|a| - 1]];
    }
  }

  lemma SameEmptiness(a: seq<string>, b: seq<string>)
    requires forall p :: p in a <==> p in b
    ensures a == [] <==> b == []
  {
    if a != [] {
      assert a[0] in b;
    }
    if b != [] {
      assert b[0] in a;
    }
  }

  lemma WithoutLast(a: seq<string>, p: string)
    requires a != [] && Distinct(a)
    ensures p in a[..|a| - 1] <==> p in a && p != a[|a| - 1]
  {
  }

  /** The three indexes say what the records, in path order, say. */
  ghost predicate AreIndexes(worktrees: map<WorktreeKey, Entry>, projects: map<WorktreeKey, Entry>,
                             members: map<MemberKey, Entry>, records: map<string, Record>) {
    forall paths :: IsPathOrder(paths, records) ==>
      var rs := RecordsAt(paths, records);
      IsIndex(worktrees, rs, WorktreeOf) && IsIndex(projects, rs, ProjectOf) && IsIndex(members, rs, MemberOf)
  }

  /** Refreshing all homes from a cache and aggregating gives the indexes of reading every file of every home anew. */
  method RefreshIndexes(previous: map<string, Record>, usable: bool, homes: seq<Home>, read: Reader)
    returns (available: seq<bool>, worktrees: map<WorktreeKey, Entry>, projects: map<WorktreeKey, Entry>,
             members: map<MemberKey, Entry>)
    ensures !usable || CachesAreTrue(previous, homes, read) ==>
              && available == AllRecords(homes, read).1
              && AreIndexes(worktrees, projects, members, AllRecords(homes, read).0)
  {
    hide IsIndex, AllRecords, CachesAreTrue, LexLess, Distinct, Ordered;
    var records;
    records, available := Refresh(previous, usable, homes, read);
    var paths := PathOrder(records);
    worktrees, projects, members := Aggregate(RecordsAt(paths, records));
    forall other | IsPathOrder(other, records) ensures other == paths {
      PathOrderIsUnique(other, paths);
    }
  }

  /** A home's records are indexed exactly when it is available: what is indexed comes from files read whole, and an
      unavailable home takes none of its records from the cache. */
  lemma {:induction false} RecordsComeFromHomes(homes: seq<Home>, read: Reader, p: string)
    ensures var (records, available) := AllRecords(homes, read);
            && |available| == |homes|
            && (forall i :: 0 <= i < |homes| ==> (available[i] <==> HomeRecords(homes[i], read).Some?))
            && (p in records <==> exists i :: 0 <= i < |homes| && HomeHolds(homes[i], read, p))
            && (p in records ==> exists i :: 0 <= i < |homes| && HomeHolds(homes[i], read, p)
                                              && HomeRecords(homes[i], read).value[p] == records[p])
  {
    hide HomeRecords;
    if homes != [] {
      var front, last := homes[..|homes| - 1], homes[|homes| - 1];
      RecordsComeFromHomes(front, read, p);
      if HomeHolds(last, read, p) {
        assert HomeHolds(homes[|homes| - 1], read, p);
      } else {
        assert forall i :: 0 <= i < |homes| && HomeHolds(homes[i], read, p) ==>
          i < |front| && HomeHolds(front[i], read, p);
      }
    }
  }

  lemma {:induction false} ScratchIsWhole(files: seq<File>, read: File -> Option<Record>)
    ensures Scratch(files, read).1 <==> forall i :: 0 <= i < |files| ==> read(files[i]).Some?
  {
    if files != [] {
      var front := files[..|files| - 1];
      ScratchIsWhole(front, read);
      ScratchStep(files, read);
      hide Scratch;
      assert forall i :: 0 <= i < |front| ==> front[i] == files[i];
    }
  }

  lemma {:induction false} ScratchHasPaths(files: seq<File>, read: File -> Option<Record>, p: string)
    requires Scratch(files, read).1
    ensures p in Scratch(files, read).0 <==> exists i :: 0 <= i < |files| && files[i].path == p
  {
    if files != [] {
      var front := files[..|files| - 1];
      ScratchStep(files, read);
      ScratchHasPaths(front, read, p);
      hide Scratch;
      if i :| 0 <= i < |files| && files[i].path == p {
        assert i < |front| ==> front[i].path == p;
      }
    }
  }

  /** File i is the last one at the path. */
  ghost predicate IsLastAt(files: seq<File>, p: string, i: int) {
    0 <= i < |files| && files[i].path == p && forall j :: i < j < |files| ==> files[j].path != p
  }

  lemma {:induction false} ScratchHasLast(files: seq<File>, read: File -> Option<Record>, p: string, i: int)
    requires Scratch(files, read).1 && IsLastAt(files, p, i)
    ensures p in Scratch(files, read).0 && read(files[i]) == Some(Scratch(files, read).0[p])
  {
    var front := files[..|files| - 1];
    ScratchStep(files, read);
    hide Scratch;
    if i < |front| {
      assert IsLastAt(front, p, i);
      ScratchHasLast(front, read, p, i);
    }
  }

  lemma ScratchStep(files: seq<File>, read: File -> Option<Record>)
    requires files != []
    ensures var front, last := files[..|files| - 1], files[|files| - 1];
            && (Scratch(files, read).1 <==> Scratch(front, read).1 && read(last).Some?)
            && (Scratch(files, read).1 ==>
                  Scratch(files, read).0 == Scratch(front, read).0[last.path := read(last).value])
  {
  }

  /** A home is available when its files can be listed, one of its roots is a directory, both stores can be read, and
      every file can; it then holds one record for each path, that of the last file there. */
  lemma HomeRecordsMean(h: Home, read: Reader, p: string, i: int)
    ensures var r := HomeRecords(h, read);
            && (r.Some? <==>
                && h.files.Some? && h.rooted && h.stored
                && forall i :: 0 <= i < |h.files.value| ==> read(h.name, h.files.value[i]).Some?)
            && (r.Some? ==> (p in r.value <==> exists i :: 0 <= i < |h.files.value| && h.files.value[i].path == p))
            && (r.Some? && IsLastAt(h.files.value, p, i) ==>
                  p in r.value && read(h.name, h.files.value[i]) == Some(r.value[p]))
  {
    if h.files.Some? {
      var files, reader := h.files.value, HomeReader(read, h.name);
      ScratchIsWhole(files, reader);
      if Scratch(files, reader).1 {
        ScratchHasPaths(files, reader, p);
        if IsLastAt(files, p, i) {
          ScratchHasLast(files, reader, p, i);
        }
      }
      hide Scratch, IsLastAt;
    }
  }

  /** A cached record is reused only for the same path and home, with the time and size the file has now. */
  lemma HitMeans(previous: map<string, Record>, f: File, home: string)
    ensures IsHit(previous, f, home) <==>
            exists r :: r in previous.Values && f.path in previous && previous[f.path] == r
                        && r.home == home && r.modified == f.modified && r.size == f.size
  {
  }

  ghost predicate HomeHolds(h: Home, read: Reader, p: string) {
    HomeRecords(h, read).Some? && p in HomeRecords(h, read).value
  }
}
