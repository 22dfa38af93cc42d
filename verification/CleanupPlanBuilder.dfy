/** Building the unified plan: row keys, grouping by canonical path, representatives, and ordering. */
module CleanupPlanBuilder {
  import opened Wrappers
  import opened Ordering
  import opened PathKeys
  import opened CleanupTargets
  import opened CleanupPlan
  import opened CleanupComponents

  /** One policy decision; the selection is still the text it came with. */
  datatype Candidate = Candidate(rowKey: string, item: Item, selection: string, reasons: seq<Reason>)

  datatype BuildResult =
    | Built(plan: Plan)
    | InvalidSelection(selection: string)
    | NoTargetPath(rowKey: string)
    | DuplicateRowKey(rowKey: string)

  function ParseSelection(text: string): Option<Selection> {
    if text == "selected" then Some(Selected)
    else if text == "unselected" then Some(Unselected)
    else if text == "locked" then Some(Locked)
    else None
  }

  function CandidateKey(c: Candidate): string {
    c.rowKey + "\0" + StableKey(c.item) + "\0" + c.selection
  }

  predicate CandidateLess(a: Candidate, b: Candidate) {
    LexLess(CandidateKey(a), CandidateKey(b))
  }

  function Decimal(n: nat): (s: string)
    ensures s != ""
  {
    if n < 10 then ["0123456789"[n]] else Decimal(n / 10) + ["0123456789"[n % 10]]
  }

  // ----- row keys

  /** How many of the candidates have no row key and the given stable key. */
  function Unkeyed(cs: seq<Candidate>, base: string): nat {
    if cs == [] then 0
    else
      Unkeyed(cs[..|cs| - 1], base)
      + if cs[|cs| - 1].rowKey == "" && CandidateKey(cs[|cs| - 1]) == base then 1 else 0
  }

  function NumberedKey(base: string, n: nat): (key: string)
    ensures key != ""
  {
    base + "#" + Decimal(n)
  }

  function WithKey(c: Candidate, earlier: nat): Candidate {
    if c.rowKey == "" then c.(rowKey := NumberedKey(CandidateKey(c), earlier + 1)) else c
  }

  /** The candidates with a row key each: their own, or their stable key with its occurrence number. */
  function Keyed(cs: seq<Candidate>): (r: seq<Candidate>)
    ensures |r| == |cs|
  {
    if cs == [] then []
    else
      var front, c := cs[..|cs| - 1], cs[|cs| - 1];
      Keyed(front) + [WithKey(c, Unkeyed(front, CandidateKey(c)))]
  }

  ghost predicate DistinctRowKeys(cs: seq<Candidate>) {
    forall i, j :: 0 <= i < j < |cs| ==> cs[i].rowKey != cs[j].rowKey
  }

  lemma {:induction false} KeyedKeeps(cs: seq<Candidate>)
    ensures forall i :: 0 <= i < |cs| ==>
              && Keyed(cs)[i].(rowKey := cs[i].rowKey) == cs[i] && Keyed(cs)[i].rowKey != ""
              && (cs[i].rowKey != "" ==> Keyed(cs)[i] == cs[i])
  {
    if cs != [] {
      KeyedKeeps(cs[..|cs| - 1]);
    }
  }

  lemma {:induction false} KeyedOfPrefix(cs: seq<Candidate>, n: nat)
    requires n <= |cs|
    ensures Keyed(cs[..n]) == Keyed(cs)[..n]
  {
    if n < |cs| {
      var front := cs[..|cs| - 1];
      KeyedOfPrefix(front, n);
      assert front[..n] == cs[..n];
    } else {
      assert cs[..n] == cs;
    }
  }

  /** What a decimal numeral counts. */
  function Count(digits: string): int {
    if digits == "" then 0 else 10 * Count(digits[..|digits| - 1]) + (digits[|digits| - 1] as int - '0' as int)
  }

  lemma {:induction false} DecimalCounts(n: nat)
    ensures Count(Decimal(n)) == n && '#' !in Decimal(n)
  {
    if n >= 10 {
      var front, last := Decimal(n / 10), "0123456789"[n % 10];
      DecimalCounts(n / 10);
      assert Decimal(n) == front + [last] && (front + [last])[..|front + [last]| - 1] == front;
    } else {
      var last := "0123456789"[n];
      assert Decimal(n) == [last] && [last][..0] == "";
    }
  }

  lemma NoHashAfter(a: string, x: string, k: int)
    requires |a| < k <= |a| + |x| && '#' !in x
    ensures (a + "#" + x)[k] != '#'
  {
    assert (a + "#" + x)[k] == x[k - |a| - 1];
  }

  lemma SameBeforeHash(a: string, b: string, x: string, y: string)
    requires a + "#" + x == b + "#" + y && '#' !in x && '#' !in y
    ensures a == b && x == y
  {
    var s, u := a + "#" + x, b + "#" + y;
    assert s[|a|] == '#' && u[|b|] == '#';
    if |a| < |b| {
      NoHashAfter(a, x, |b|);
      assert false;
    }
    if |b| < |a| {
      NoHashAfter(b, y, |a|);
      assert false;
    }
    assert s[..|a|] == a && u[..|b|] == b;
    assert s[|a| + 1..] == x && u[|b| + 1..] == y;
  }

  lemma {:induction false} UnkeyedGrows(cs: seq<Candidate>, i: nat, j: nat, base: string)
    requires i < j <= |cs| && cs[i].rowKey == "" && CandidateKey(cs[i]) == base
    ensures Unkeyed(cs[..i], base) < Unkeyed(cs[..j], base)
    decreases j
  {
    hide CandidateKey;
    assert cs[..j][..j - 1] == cs[..j - 1];
    if i < j - 1 {
      UnkeyedGrows(cs, i, j - 1, base);
    }
  }

  function RowKeyAt(cs: seq<Candidate>, i: nat): string
    requires i < |cs|
  {
    Keyed(cs)[i].rowKey
  }

  /** Which one of its kind the candidate is among those without a row key. */
  function NumberAt(cs: seq<Candidate>, i: nat): nat
    requires i < |cs|
  {
    Unkeyed(cs[..i], CandidateKey(cs[i])) + 1
  }

  lemma GeneratedKey(cs: seq<Candidate>, i: nat)
    requires i < |cs| && cs[i].rowKey == ""
    ensures RowKeyAt(cs, i) == NumberedKey(CandidateKey(cs[i]), NumberAt(cs, i))
  {
    KeyedStep(cs, i);
    hide CandidateKey, NumberedKey, Keyed, Unkeyed;
  }

  lemma NumberedApart(a: string, b: string, m: nat, n: nat)
    requires a == b ==> m < n
    ensures NumberedKey(a, m) != NumberedKey(b, n)
  {
    DecimalCounts(m);
    DecimalCounts(n);
    hide Decimal, Count;
    if NumberedKey(a, m) == NumberedKey(b, n) {
      SameBeforeHash(a, b, Decimal(m), Decimal(n));
      assert false;
    }
  }

  lemma LaterCountsMore(cs: seq<Candidate>, i: nat, j: nat)
    requires i < j < |cs| && cs[i].rowKey == ""
    ensures CandidateKey(cs[i]) == CandidateKey(cs[j]) ==> NumberAt(cs, i) < NumberAt(cs, j)
  {
    hide CandidateKey, Unkeyed;
    UnkeyedGrows(cs, i, j, CandidateKey(cs[i]));
  }

  /** Generated row keys are never shared. */
  lemma GeneratedKeysDiffer(cs: seq<Candidate>, i: nat, j: nat)
    requires i < j < |cs| && cs[i].rowKey == "" && cs[j].rowKey == ""
    ensures RowKeyAt(cs, i) != RowKeyAt(cs, j)
  {
    hide *;
    GeneratedKey(cs, i);
    GeneratedKey(cs, j);
    LaterCountsMore(cs, i, j);
    NumberedApart(CandidateKey(cs[i]), CandidateKey(cs[j]), NumberAt(cs, i), NumberAt(cs, j));
  }

  lemma NumberOne(base: string)
    ensures NumberedKey(base, 1) == base + "#1"
  {
    assert Decimal(1) == "1";
  }

  lemma FirstIsOne(cs: seq<Candidate>, i: nat)
    requires i < |cs|
    requires forall k :: 0 <= k < i ==> cs[k].rowKey != "" || CandidateKey(cs[k]) != CandidateKey(cs[i])
    ensures NumberAt(cs, i) == 1
  {
    hide CandidateKey, Unkeyed;
    NoneUnkeyed(cs[..i], CandidateKey(cs[i]));
  }

  /** The first candidate of its kind is number one. */
  lemma FirstGeneratedKey(cs: seq<Candidate>, i: nat)
    requires i < |cs| && cs[i].rowKey == ""
    requires forall k :: 0 <= k < i ==> cs[k].rowKey != "" || CandidateKey(cs[k]) != CandidateKey(cs[i])
    ensures RowKeyAt(cs, i) == CandidateKey(cs[i]) + "#1"
  {
    hide *;
    GeneratedKey(cs, i);
    FirstIsOne(cs, i);
    NumberOne(CandidateKey(cs[i]));
  }

  lemma {:induction false} NoneUnkeyed(cs: seq<Candidate>, base: string)
    requires forall k :: 0 <= k < |cs| ==> cs[k].rowKey != "" || CandidateKey(cs[k]) != base
    ensures Unkeyed(cs, base) == 0
  {
    hide CandidateKey;
    if cs != [] {
      NoneUnkeyed(cs[..|cs| - 1], base);
    }
  }

  // ----- groups

  /** The candidates with the canonical path, in order. */
  function Group(cs: seq<Candidate>, p: PathKey): seq<Candidate> {
    if cs == [] then []
    else
      var front, c := cs[..|cs| - 1], cs[|cs| - 1];
      Group(front, p) + if c.item.path == Some(p) then [c] else []
  }

  function SortedGroup(cs: seq<Candidate>, p: PathKey): seq<Candidate> {
    SortBy(Group(cs, p), CandidateLess)
  }

  lemma {:induction false} GroupMembers(cs: seq<Candidate>, p: PathKey)
    ensures forall c :: c in Group(cs, p) <==> c in cs && c.item.path == Some(p)
    ensures DistinctRowKeys(cs) ==> DistinctRowKeys(Group(cs, p))
  {
    if cs != [] {
      var front, c := cs[..|cs| - 1], cs[|cs| - 1];
      GroupMembers(front, p);
      assert cs == front + [c];
      if DistinctRowKeys(cs) {
        forall i | 0 <= i < |Group(front, p)| ensures Group(front, p)[i].rowKey != c.rowKey {
          assert Group(front, p)[i] in front;
        }
      }
    }
  }

  lemma SortedGroupMembers(cs: seq<Candidate>, p: PathKey)
    ensures forall c :: c in SortedGroup(cs, p) <==> c in cs && c.item.path == Some(p)
    ensures DistinctRowKeys(cs) ==> DistinctRowKeys(SortedGroup(cs, p))
  {
    hide SortBy;
    GroupMembers(cs, p);
    var g, s := Group(cs, p), SortedGroup(cs, p);
    SortKeepsMembers(g, CandidateLess);
    if DistinctRowKeys(cs) {
      assert Distinct(g);
      SortKeepsDistinct(g, CandidateLess);
      forall i, j | 0 <= i < j < |s| ensures s[i].rowKey != s[j].rowKey {
        assert s[i] in s && s[j] in s && s[i] != s[j];
        var a :| 0 <= a < |g| && g[a] == s[i];
        var b :| 0 <= b < |g| && g[b] == s[j];
        assert a < b || b < a;
      }
    }
  }

  // ----- the representative

  datatype Best = Best(item: Item, active: bool, rawSizes: map<PathKey, int>)

  function BestOf(path: PathKey, cs: seq<Candidate>): Best
    requires cs != []
  {
    var item := cs[|cs| - 1].item;
    if |cs| == 1 then Best(item, IsActiveWorktree(item), map[item.raw := item.size])
    else
      var before := BestOf(path, cs[..|cs| - 1]);
      Best(Chosen(before.item, item, path), before.active || IsActiveWorktree(item), MergedSizes(before.rawSizes, item))
  }

  /** The row that stands for a canonical path, active when it is a worktree and any row is active, with the
      size recorded for its raw path. */
  function Representative(path: PathKey, cs: seq<Candidate>): Item
    requires cs != []
  {
    var best := BestOf(path, cs);
    var item := if best.active && best.item.isWorktree then best.item.(status := ACTIVE) else best.item;
    item.(size := RawSize(best.rawSizes, item.raw))
  }

  /** The representative's row is one of the group's. */
  lemma {:induction false} RepresentativeIsBest(path: PathKey, cs: seq<Candidate>)
    requires cs != []
    ensures exists k :: 0 <= k < |cs| && BestOf(path, cs).item == cs[k].item
    ensures forall k :: 0 <= k < |cs| ==> !PreferForCanonical(cs[k].item, BestOf(path, cs).item, path)
    ensures BestOf(path, cs).active <==> exists k :: 0 <= k < |cs| && IsActiveWorktree(cs[k].item)
  {
    hide StableKey;
    var front, last := cs[..|cs| - 1], cs[|cs| - 1];
    var best := BestOf(path, cs).item;
    if front == [] {
      PreferIsStrict(last.item, last.item, last.item, path);
    } else {
      RepresentativeIsBest(path, front);
      var before := BestOf(path, front).item;
      var k :| 0 <= k < |front| && before == front[k].item;
      assert cs[k] == front[k] && (best == before || best == last.item);
      forall k | 0 <= k < |cs| ensures !PreferForCanonical(cs[k].item, best, path) {
        assert k < |front| ==> cs[k] == front[k];
        PreferIsStrict(best, best, best, path);
        PreferIsStrict(last.item, before, last.item, path);
        PreferIsStrict(cs[k].item, before, best, path);
      }
      ActiveStep(path, cs);
    }
  }

  lemma ActiveStep(path: PathKey, cs: seq<Candidate>)
    requires |cs| > 1
    requires var front := cs[..|cs| - 1];
             BestOf(path, front).active <==> exists k :: 0 <= k < |front| && IsActiveWorktree(front[k].item)
    ensures BestOf(path, cs).active <==> exists k :: 0 <= k < |cs| && IsActiveWorktree(cs[k].item)
  {
    hide IsActiveWorktree, Chosen, MergedSizes;
    var front := cs[..|cs| - 1];
    if k :| 0 <= k < |front| && IsActiveWorktree(front[k].item) {
      assert IsActiveWorktree(cs[k].item);
    }
    if k :| 0 <= k < |cs| && IsActiveWorktree(cs[k].item) {
      assert k < |front| ==> IsActiveWorktree(front[k].item);
    }
  }

  /** Preference is a strict weak order: not preferring is transitive. */
  lemma PreferIsStrict(a: Item, b: Item, c: Item, path: PathKey)
    ensures PreferForCanonical(a, b, path) ==> !PreferForCanonical(b, a, path)
    ensures !PreferForCanonical(a, b, path) && !PreferForCanonical(b, c, path) ==> !PreferForCanonical(a, c, path)
  {
    hide LexLess, StableKey;
    var x, y, z := StableKey(a), StableKey(b), StableKey(c);
    if LexLess(x, y) {
      LexAsymmetric(x, y);
    }
    if !LexLess(x, y) && !LexLess(y, z) {
      LexNotLessTransitive(z, y, x);
    }
  }

  /** None of the rows is preferred to row k. */
  ghost predicate IsBestRow(cs: seq<Candidate>, path: PathKey, k: int) {
    0 <= k < |cs| && forall j :: 0 <= j < |cs| ==> !PreferForCanonical(cs[j].item, cs[k].item, path)
  }

  ghost predicate HasActive(cs: seq<Candidate>) {
    exists k :: 0 <= k < |cs| && cs[k].item.isWorktree && cs[k].item.status == "active"
  }

  /** Row k has the raw path. */
  predicate HasRaw(cs: seq<Candidate>, raw: PathKey, k: int) {
    0 <= k < |cs| && cs[k].item.raw == raw
  }

  /** The item stands for the rows: it is a best row, made active when it is a worktree and some row is an active one,
      with the largest size among the rows sharing its raw path. */
  ghost predicate Represents(item: Item, path: PathKey, cs: seq<Candidate>) {
    && (exists k :: IsBestRow(cs, path, k)
                    && item == cs[k].item.(status := if cs[k].item.isWorktree && HasActive(cs) then "active"
                                                     else cs[k].item.status, size := item.size))
    && (item.isWorktree && item.status == "active" <==> item.isWorktree && HasActive(cs))
    && (forall k :: HasRaw(cs, item.raw, k) ==> cs[k].item.size <= item.size)
    && ((forall k :: 0 <= k < |cs| ==> cs[k].item.size >= 0) ==>
          exists k :: HasRaw(cs, item.raw, k) && cs[k].item.size == item.size)
  }

  /** The recorded size of a raw path is the largest of its rows', or zero when that is larger and it is not the first
      raw path. */
  lemma {:induction false} RecordedSizes(path: PathKey, cs: seq<Candidate>, raw: PathKey)
    requires cs != []
    ensures var size := RawSize(BestOf(path, cs).rawSizes, raw);
            && (forall k :: HasRaw(cs, raw, k) ==> cs[k].item.size <= size)
            && (size == 0 || exists k :: HasRaw(cs, raw, k) && cs[k].item.size == size)
  {
    hide Chosen, IsActiveWorktree;
    var front, last := cs[..|cs| - 1], cs[|cs| - 1];
    if front == [] {
      assert HasRaw(cs, last.item.raw, 0);
    } else {
      RecordedSizes(path, front, raw);
      assert forall k :: HasRaw(cs, raw, k) <==> HasRaw(front, raw, k) || (k == |front| && last.item.raw == raw);
      var size, before := RawSize(BestOf(path, cs).rawSizes, raw), RawSize(BestOf(path, front).rawSizes, raw);
      if size == before && size != 0 {
        var k :| HasRaw(front, raw, k) && front[k].item.size == before;
        assert HasRaw(cs, raw, k) && cs[k].item.size == size;
      } else if size != 0 {
        assert HasRaw(cs, raw, |front|) && last.item.size == size;
      }
    }
  }

  lemma RepresentativeRepresents(path: PathKey, cs: seq<Candidate>)
    requires cs != []
    ensures Represents(Representative(path, cs), path, cs)
  {
    RepresentativeIsBest(path, cs);
    var best := BestOf(path, cs);
    var item := Representative(path, cs);
    assert best.active <==> HasActive(cs);
    hide BestOf, PreferForCanonical;
    var k :| 0 <= k < |cs| && best.item == cs[k].item;
    assert IsBestRow(cs, path, k) && HasRaw(cs, item.raw, k);
    RecordedSizes(path, cs, item.raw);
  }

  method FindRepresentative(path: PathKey, cs: seq<Candidate>) returns (item: Item)
    requires cs != []
    ensures item == Representative(path, cs) && Represents(item, path, cs)
  {
    RepresentativeRepresents(path, cs);
    hide Represents;
    item := cs[0].item;
    var hasActive := IsActiveWorktree(item);
    var rawSizes := map[item.raw := item.size];
    for i := 1 to |cs|
      invariant BestOf(path, cs[..i]) == Best(item, hasActive, rawSizes)
    {
      assert cs[..i + 1][..i] == cs[..i];
      var candidate := cs[i].item;
      hasActive := hasActive || IsActiveWorktree(candidate);
      if candidate.size > RawSize(rawSizes, candidate.raw) {
        rawSizes := rawSizes[candidate.raw := candidate.size];
      }
      if PreferForCanonical(candidate, item, path) {
        item := candidate;
      }
    }
    assert cs[..|cs|] == cs;
    if hasActive && item.isWorktree {
      item := item.(status := ACTIVE);
    }
    item := item.(size := RawSize(rawSizes, item.raw));
  }

  // ----- policies

  function SelectionOf(c: Candidate): Selection {
    match ParseSelection(c.selection)
    case Some(s) => s
    case None => Unselected
  }

  /** Locked when some row is, else selected when some row is. */
  ghost predicate IsAggregate(cs: seq<Candidate>, s: Selection) {
    && (s == Locked <==> exists i :: 0 <= i < |cs| && SelectionOf(cs[i]) == Locked)
    && (s == Unselected <==> forall i :: 0 <= i < |cs| ==> SelectionOf(cs[i]) == Unselected)
  }

  method AggregateSelection(cs: seq<Candidate>) returns (s: Selection)
    ensures IsAggregate(cs, s)
  {
    s := Unselected;
    for i := 0 to |cs|
      invariant s != Locked && forall j :: 0 <= j < i ==> SelectionOf(cs[j]) != Locked
      invariant s == Unselected <==> forall j :: 0 <= j < i ==> SelectionOf(cs[j]) == Unselected
    {
      match SelectionOf(cs[i]) {
        case Locked => return Locked;
        case Selected => s := Selected;
        case Unselected =>
      }
    }
  }

  // ----- rows and targets before components are built

  function RowKeysOf(cs: seq<Candidate>): (r: seq<string>)
    ensures |r| == |cs|
  {
    seq(|cs|, i requires 0 <= i < |cs| => cs[i].rowKey)
  }

  ghost predicate IsTargetFor(t: Target, cs: seq<Candidate>, p: PathKey) {
    var group := SortedGroup(cs, p);
    && group != [] && IsAggregate(group, t.policy)
    && t == Target(p, None, Representative(p, group), RowKeysOf(group), t.policy, t.policy)
  }

  predicate IsRowFor(row: Row, c: Candidate) {
    && row.key == c.rowKey && c.item.path == Some(row.path) && row.item == c.item && row.reasons == c.reasons
    && row.policy == SelectionOf(c) && row.owner == None && row.relation == Unrelated && row.physicalBytes == 0
  }

  function KeysOf(ts: seq<Target>): seq<PathKey> {
    seq(|ts|, i requires 0 <= i < |ts| => ts[i].key)
  }

  /** One target per canonical path, ordered by spelling; one row per candidate, target by target. */
  ghost predicate IsIntake(cs: seq<Candidate>, rows: seq<Row>, ts: seq<Target>) {
    && DistinctKeys(ts) && (forall i, j :: 0 <= i < j < |ts| ==> !SpellingLess(ts[j].key, ts[i].key))
    && (forall i :: 0 <= i < |ts| ==> IsTargetFor(ts[i], cs, ts[i].key))
    && (forall k :: 0 <= k < |cs| ==> exists i :: 0 <= i < |ts| && cs[k].item.path == Some(ts[i].key))
    && IsRowsFor(rows, cs, KeysOf(ts))
  }

  /** The rows are those of the keys' groups, one group after the other. */
  ghost predicate IsRowsFor(rows: seq<Row>, cs: seq<Candidate>, keys: seq<PathKey>) {
    var all := GroupsOf(cs, keys);
    |rows| == |all| && forall i :: 0 <= i < |rows| ==> IsRowFor(rows[i], all[i])
  }

  function GroupsOf(cs: seq<Candidate>, keys: seq<PathKey>): seq<Candidate> {
    if keys == [] then [] else GroupsOf(cs, keys[..|keys| - 1]) + SortedGroup(cs, keys[|keys| - 1])
  }

  lemma {:induction false} GroupsMembers(cs: seq<Candidate>, keys: seq<PathKey>)
    requires DistinctRowKeys(cs) && Distinct(keys)
    ensures forall c :: c in GroupsOf(cs, keys) <==> c in cs && c.item.path.Some? && c.item.path.value in keys
    ensures DistinctRowKeys(GroupsOf(cs, keys))
  {
    hide SortedGroup;
    if keys != [] {
      var front, p := keys[..|keys| - 1], keys[|keys| - 1];
      GroupsMembers(cs, front);
      SortedGroupMembers(cs, p);
      var a, b := GroupsOf(cs, front), SortedGroup(cs, p);
      assert keys == front + [p];
      forall i, j | 0 <= i < |a| && 0 <= j < |b| ensures a[i].rowKey != b[j].rowKey {
        assert a[i] in a && b[j] in b && a[i] != b[j];
        var k :| 0 <= k < |cs| && cs[k] == a[i];
        var l :| 0 <= l < |cs| && cs[l] == b[j];
        assert k < l || l < k;
      }
    }
  }

  // ----- taking the candidates in

  predicate IsUsable(c: Candidate) {
    ParseSelection(c.selection).Some? && c.item.path.Some?
  }

  ghost predicate IsAccepted(cs: seq<Candidate>) {
    (forall i :: 0 <= i < |cs| ==> IsUsable(cs[i])) && DistinctRowKeys(Keyed(cs))
  }

  /** The first candidate that cannot be taken in is number n, and r says why. */
  ghost predicate IsFirstProblem(cs: seq<Candidate>, n: int, r: BuildResult) {
    && 0 <= n < |cs| && IsAccepted(cs[..n])
    && var c := cs[n];
       match r
       case Built(_) => false
       case InvalidSelection(selection) => selection == c.selection && ParseSelection(selection) == None
       case NoTargetPath(rowKey) => ParseSelection(c.selection).Some? && c.item.path == None && rowKey == c.rowKey
       case DuplicateRowKey(rowKey) =>
         IsUsable(c) && rowKey == Keyed(cs)[n].rowKey && exists i :: 0 <= i < n && Keyed(cs)[i].rowKey == rowKey
  }

  ghost predicate AreGroups(groups: map<PathKey, seq<Candidate>>, cs: seq<Candidate>) {
    forall p :: (if p in groups then groups[p] else []) == Group(cs, p) && (p in groups ==> groups[p] != [])
  }

  ghost predicate CountsUnkeyed(counts: map<string, nat>, cs: seq<Candidate>) {
    forall base :: CountAt(counts, base) == Unkeyed(cs, base)
  }

  function CountAt(counts: map<string, nat>, base: string): nat {
    if base in counts then counts[base] else 0
  }

  ghost predicate AreRowKeys(keys: set<string>, cs: seq<Candidate>) {
    forall k :: k in keys <==> exists i :: 0 <= i < |cs| && cs[i].rowKey == k
  }

  lemma NothingCollected()
    ensures IsAccepted([]) && AreGroups(map[], []) && CountsUnkeyed(map[], []) && AreRowKeys({}, [])
  {
  }

  lemma PrefixStep<T>(s: seq<T>, n: int)
    requires 0 <= n < |s|
    ensures s[..n + 1] == s[..n] + [s[n]] && s[..n + 1][..n] == s[..n]
  {
  }

  lemma CountsStep(counts: map<string, nat>, cs: seq<Candidate>, c: Candidate)
    requires CountsUnkeyed(counts, cs)
    ensures CountsUnkeyed(
              if c.rowKey == "" then counts[CandidateKey(c) := CountAt(counts, CandidateKey(c)) + 1] else counts,
              cs + [c])
    ensures CountAt(counts, CandidateKey(c)) == Unkeyed(cs, CandidateKey(c))
  {
    hide CandidateKey;
    var more := cs + [c];
    assert more[..|more| - 1] == cs && more[|more| - 1] == c;
    var after := if c.rowKey == "" then counts[CandidateKey(c) := CountAt(counts, CandidateKey(c)) + 1] else counts;
    forall base ensures CountAt(after, base) == Unkeyed(more, base) {
      assert CountAt(counts, base) == Unkeyed(cs, base);
    }
  }

  lemma KeyedStep(cs: seq<Candidate>, n: nat)
    requires n < |cs|
    ensures Keyed(cs[..n + 1]) == Keyed(cs[..n]) + [WithKey(cs[n], Unkeyed(cs[..n], CandidateKey(cs[n])))]
    ensures Keyed(cs[..n + 1]) == Keyed(cs)[..n + 1] && Keyed(cs[..n]) == Keyed(cs)[..n]
    ensures Keyed(cs)[n] == WithKey(cs[n], Unkeyed(cs[..n], CandidateKey(cs[n])))
  {
    hide CandidateKey, NumberedKey;
    PrefixStep(cs, n);
    KeyedOfPrefix(cs, n + 1);
    KeyedOfPrefix(cs, n);
    hide Keyed;
    assert Keyed(cs)[n] == Keyed(cs)[..n + 1][n];
  }

  lemma RowKeysStep(cs: seq<Candidate>, c: Candidate, keys: set<string>)
    requires DistinctRowKeys(cs) && AreRowKeys(keys, cs) && c.rowKey !in keys
    ensures DistinctRowKeys(cs + [c]) && AreRowKeys(keys + {c.rowKey}, cs + [c])
  {
    var all, after := cs + [c], keys + {c.rowKey};
    forall i | 0 <= i < |cs| ensures cs[i].rowKey != c.rowKey {
      assert cs[i].rowKey in keys;
    }
    forall k ensures k in after <==> exists i :: 0 <= i < |all| && all[i].rowKey == k {
      if k == c.rowKey {
        assert all[|cs|].rowKey == k;
      } else if k in keys {
        var i :| 0 <= i < |cs| && cs[i].rowKey == k;
        assert all[i].rowKey == k;
      }
    }
  }

  lemma AcceptedStep(cs: seq<Candidate>, n: nat, keys: set<string>)
    requires n < |cs| && IsAccepted(cs[..n]) && AreRowKeys(keys, Keyed(cs)[..n]) && Keyed(cs[..n]) == Keyed(cs)[..n]
    requires IsUsable(cs[n]) && Keyed(cs)[n].rowKey !in keys && Keyed(cs[..n + 1]) == Keyed(cs)[..n + 1]
    ensures IsAccepted(cs[..n + 1]) && AreRowKeys(keys + {Keyed(cs)[n].rowKey}, Keyed(cs)[..n + 1])
  {
    hide Keyed, IsUsable, DistinctRowKeys, AreRowKeys;
    var all := Keyed(cs);
    PrefixStep(all, n);
    RowKeysStep(all[..n], all[n], keys);
    UsableStep(cs, n);
  }

  lemma UsableStep(cs: seq<Candidate>, n: nat)
    requires n < |cs| && IsUsable(cs[n])
    requires var before := cs[..n]; forall i :: 0 <= i < n ==> IsUsable(before[i])
    ensures var now := cs[..n + 1]; forall i :: 0 <= i < n + 1 ==> IsUsable(now[i])
  {
    hide IsUsable;
    var before, now := cs[..n], cs[..n + 1];
    forall i | 0 <= i < n + 1 ensures IsUsable(now[i]) {
      assert i < n ==> before[i] == now[i];
    }
  }

  lemma GroupsStep(groups: map<PathKey, seq<Candidate>>, cs: seq<Candidate>, c: Candidate, p: PathKey)
    requires AreGroups(groups, cs) && c.item.path == Some(p)
    ensures AreGroups(groups[p := (if p in groups then groups[p] else []) + [c]], cs + [c])
  {
    assert (cs + [c])[..|cs|] == cs;
  }

  lemma ProblemRejects(cs: seq<Candidate>, n: int, r: BuildResult)
    requires IsFirstProblem(cs, n, r)
    ensures !IsAccepted(cs)
  {
    hide Keyed;
  }

  /** Candidates are checked, keyed and grouped in one pass, up to the first problem. */
  method CollectGroups(cs: seq<Candidate>)
    returns (problem: Option<BuildResult>, groups: map<PathKey, seq<Candidate>>)
    ensures problem == None <==> IsAccepted(cs)
    ensures problem == None ==> AreGroups(groups, Keyed(cs))
    ensures problem.Some? ==> exists n :: IsFirstProblem(cs, n, problem.value)
  {
    hide IsAccepted, AreGroups, CountsUnkeyed, Keyed, DistinctRowKeys, CandidateKey, NumberedKey, ParseSelection;
    groups := map[];
    var counts: map<string, nat> := map[];
    var rowKeys: set<string> := {};
    NothingCollected();
    assert Keyed([]) == [] by {
      KeyedOfPrefix(cs, 0);
    }
    assert cs[..0] == [] && Keyed(cs)[..0] == [];
    for n := 0 to |cs|
      invariant IsAccepted(cs[..n]) && AreGroups(groups, Keyed(cs[..n])) && CountsUnkeyed(counts, cs[..n])
      invariant AreRowKeys(rowKeys, Keyed(cs)[..n])
    {
      var candidate := cs[n];
      KeyedStep(cs, n);
      CountsStep(counts, cs[..n], candidate);
      PrefixStep(cs, n);
      if ParseSelection(candidate.selection) == None {
        problem := Some(InvalidSelection(candidate.selection));
        ProblemRejects(cs, n, problem.value);
        return;
      }
      if candidate.item.path == None {
        problem := Some(NoTargetPath(candidate.rowKey));
        ProblemRejects(cs, n, problem.value);
        return;
      }
      var path := candidate.item.path.value;
      if candidate.rowKey == "" {
        var base := CandidateKey(candidate);
        counts := counts[base := CountAt(counts, base) + 1];
        candidate := candidate.(rowKey := NumberedKey(base, counts[base]));
      }
      assert candidate == Keyed(cs)[n] && candidate.item == cs[n].item;
      if candidate.rowKey in rowKeys {
        problem := Some(DuplicateRowKey(candidate.rowKey));
        assert exists i :: 0 <= i < n && Keyed(cs)[i].rowKey == candidate.rowKey by {
          var i :| 0 <= i < |Keyed(cs)[..n]| && Keyed(cs)[..n][i].rowKey == candidate.rowKey;
          assert Keyed(cs)[i].rowKey == candidate.rowKey;
        }
        ProblemRejects(cs, n, problem.value);
        return;
      }
      AcceptedStep(cs, n, rowKeys);
      rowKeys := rowKeys + {candidate.rowKey};
      GroupsStep(groups, Keyed(cs[..n]), candidate, path);
      groups := groups[path := (if path in groups then groups[path] else []) + [candidate]];
    }
    problem := None;
    assert cs[..|cs|] == cs;
  }

  // ----- the whole build

  method SortedKeys(groups: map<PathKey, seq<Candidate>>) returns (keys: seq<PathKey>)
    ensures Distinct(keys) && Ordered(keys, SpellingLess) && forall p :: p in keys <==> p in groups
  {
    hide SpellingLess;
    var all: seq<PathKey> := [];
    var left := groups.Keys;
    while left != {}
      invariant left <= groups.Keys && Distinct(all) && forall p :: p in all <==> p in groups.Keys - left
      decreases |left|
    {
      var p :| p in left;
      forall i | 0 <= i < |all| ensures all[i] != p {
        assert all[i] in all;
      }
      all := all + [p];
      left := left - {p};
    }
    keys := SortBy(all, SpellingLess);
    SortKeepsMembers(all, SpellingLess);
    SortKeepsDistinct(all, SpellingLess);
    SpellingIsWeakOrder();
    SortSorts(all, SpellingLess);
  }

  /** The rows of one group, in order. */
  method RowsOfGroup(group: seq<Candidate>, key: PathKey, selection: Selection) returns (rows: seq<Row>)
    requires forall i :: 0 <= i < |group| ==> group[i].item.path == Some(key)
    ensures |rows| == |group| && forall i :: 0 <= i < |rows| ==> IsRowFor(rows[i], group[i])
  {
    rows := [];
    for i := 0 to |group|
      invariant |rows| == i && forall j :: 0 <= j < i ==> IsRowFor(rows[j], group[j])
    {
      var c := group[i];
      rows := rows + [Row(c.rowKey, key, None, Unrelated, c.item, SelectionOf(c), selection, c.reasons, 0)];
    }
  }

  lemma RowsExtend(rows: seq<Row>, more: seq<Row>, cs: seq<Candidate>, keys: seq<PathKey>, p: PathKey)
    requires IsRowsFor(rows, cs, keys)
    requires |more| == |SortedGroup(cs, p)| && forall i :: 0 <= i < |more| ==> IsRowFor(more[i], SortedGroup(cs, p)[i])
    ensures IsRowsFor(rows + more, cs, keys + [p])
  {
    hide SortedGroup, IsRowFor;
    assert (keys + [p])[..|keys|] == keys;
  }

  /** Each group, in key order, becomes one target and its rows. */
  method RowsAndTargets(ghost cs: seq<Candidate>, groups: map<PathKey, seq<Candidate>>, keys: seq<PathKey>)
    returns (rows: seq<Row>, targets: seq<Target>)
    requires AreGroups(groups, cs) && Distinct(keys) && forall p :: p in keys ==> p in groups
    ensures KeysOf(targets) == keys && IsRowsFor(rows, cs, keys)
    ensures forall i :: 0 <= i < |targets| ==> IsTargetFor(targets[i], cs, targets[i].key)
  {
    hide SortBy, Group, Representative, IsAggregate, IsRowFor, AreGroups, IsRowsFor, SortedGroup;
    rows, targets := [], [];
    NoRows(cs);
    for n := 0 to |keys|
      invariant KeysOf(targets) == keys[..n] && IsRowsFor(rows, cs, keys[..n])
      invariant forall i :: 0 <= i < |targets| ==> IsTargetFor(targets[i], cs, targets[i].key)
    {
      var key := keys[n];
      GroupIs(groups, cs, key);
      var group := SortBy(groups[key], CandidateLess);
      var selection := AggregateSelection(group);
      var item := FindRepresentative(key, group);
      var more := RowsOfGroup(group, key, selection);
      RowsExtend(rows, more, cs, keys[..n], key);
      PrefixStep(keys, n);
      targets := targets + [Target(key, None, item, RowKeysOf(group), selection, selection)];
      rows := rows + more;
    }
    assert keys[..|keys|] == keys;
  }

  lemma NoRows(cs: seq<Candidate>)
    ensures IsRowsFor([], cs, []) && KeysOf([]) == []
  {
  }

  lemma GroupIs(groups: map<PathKey, seq<Candidate>>, cs: seq<Candidate>, p: PathKey)
    requires AreGroups(groups, cs) && p in groups
    ensures SortBy(groups[p], CandidateLess) == SortedGroup(cs, p) && SortedGroup(cs, p) != []
    ensures forall i :: 0 <= i < |SortedGroup(cs, p)| ==> SortedGroup(cs, p)[i].item.path == Some(p)
  {
    SortKeeps(groups[p], CandidateLess);
    SortedGroupMembers(cs, p);
    hide SortedGroup;
    forall i | 0 <= i < |SortedGroup(cs, p)| ensures SortedGroup(cs, p)[i].item.path == Some(p) {
      assert SortedGroup(cs, p)[i] in SortedGroup(cs, p);
    }
  }

  lemma KeyAtIndex(ts: seq<Target>)
    ensures |KeysOf(ts)| == |ts| && forall i :: 0 <= i < |ts| ==> KeysOf(ts)[i] == ts[i].key
  {
  }

  lemma IntakeIs(cs: seq<Candidate>, groups: map<PathKey, seq<Candidate>>, keys: seq<PathKey>, rows: seq<Row>,
                 ts: seq<Target>)
    requires AreGroups(groups, cs) && Distinct(keys) && Ordered(keys, SpellingLess)
             && (forall p :: p in keys <==> p in groups)
    requires KeysOf(ts) == keys && IsRowsFor(rows, cs, keys)
    requires forall i :: 0 <= i < |ts| ==> IsTargetFor(ts[i], cs, ts[i].key)
    requires forall i :: 0 <= i < |cs| ==> cs[i].item.path.Some?
    ensures IsIntake(cs, rows, ts) && DistinctKeys(ts)
  {
    hide IsTargetFor, IsRowsFor, SpellingLess, Group, KeysOf;
    KeyAtIndex(ts);
    forall i, j | 0 <= i < j < |ts| ensures ts[i].key != ts[j].key && !SpellingLess(ts[j].key, ts[i].key) {
      assert keys[i] != keys[j] && !SpellingLess(keys[j], keys[i]);
    }
    forall k | 0 <= k < |cs| ensures exists i :: 0 <= i < |ts| && cs[k].item.path == Some(ts[i].key) {
      var p := cs[k].item.path.value;
      GroupMembers(cs, p);
      assert cs[k] in Group(cs, p);
      assert Group(cs, p) != [];
      assert p in groups;
      assert p in keys;
      var i :| 0 <= i < |keys| && keys[i] == p;
      assert ts[i].key == p;
    }
    assert DistinctKeys(ts);
    assert forall i, j :: 0 <= i < j < |ts| ==> !SpellingLess(ts[j].key, ts[i].key);
    assert IsRowsFor(rows, cs, KeysOf(ts));
    assert forall k :: 0 <= k < |cs| ==> exists i :: 0 <= i < |ts| && cs[k].item.path == Some(ts[i].key);
  }

  /** Either the first candidate (in stable order) that cannot be taken in is reported, or the plan is built from
      all of them. */
  method BuildUnifiedCleanupPlan(candidates: seq<Candidate>)
    returns (r: BuildResult, ghost rows: seq<Row>, ghost ts: seq<Target>)
    ensures r.Built? <==> IsAccepted(SortBy(candidates, CandidateLess))
    ensures r.Built? ==>
              DistinctKeys(ts) && IsIntake(Keyed(SortBy(candidates, CandidateLess)), rows, ts)
              && IsFresh(r.plan, rows, ts)
    ensures !r.Built? ==> exists n :: IsFirstProblem(SortBy(candidates, CandidateLess), n, r)
  {
    hide *;
    var ordered := SortBy(candidates, CandidateLess);
    var problem, groups := CollectGroups(ordered);
    if problem.Some? {
      ProblemIsNotBuilt(ordered, problem.value);
      return problem.value, [], [];
    }
    var keys := SortedKeys(groups);
    ghost var cs := Keyed(ordered);
    var rs, targets := RowsAndTargets(cs, groups, keys);
    AcceptedHavePaths(ordered);
    IntakeIs(cs, groups, keys, rs, targets);
    var rowArray := new Row[|rs|](i requires 0 <= i < |rs| => rs[i]);
    var targetArray := new Target[|targets|](i requires 0 <= i < |targets| => targets[i]);
    assert rowArray[..] == rs && targetArray[..] == targets;
    var components := BuildPhysicalComponents(rowArray, targetArray);
    r := Built(Plan(SortBy(rowArray[..], RowLess), targetArray[..], components));
    rows, ts := rs, targets;
    FreshIs(r.plan, rs, targets);
  }

  lemma ProblemIsNotBuilt(cs: seq<Candidate>, r: BuildResult)
    requires exists n :: IsFirstProblem(cs, n, r)
    ensures !r.Built?
  {
  }

  lemma AcceptedHavePaths(cs: seq<Candidate>)
    requires IsAccepted(cs)
    ensures forall i :: 0 <= i < |Keyed(cs)| ==> Keyed(cs)[i].item.path.Some?
  {
    hide Keyed;
    KeyedKeeps(cs);
    forall i | 0 <= i < |Keyed(cs)| ensures Keyed(cs)[i].item.path.Some? {
      assert IsUsable(cs[i]);
      assert Keyed(cs)[i].item == cs[i].item;
    }
  }

  lemma FreshIs(plan: Plan, rows: seq<Row>, ts: seq<Target>)
    requires plan.targets == OwnedTargets(ts) && plan.rows == SortBy(LabelledRows(rows, ts), RowLess)
    requires AreComponents(plan.components, ts)
    ensures IsFresh(plan, rows, ts)
  {
  }
}
