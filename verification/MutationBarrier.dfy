/** The last barrier before a mutation: every overlapping agent-state entry must still be orphaned, and unchanged. */
module MutationBarrier {
  import opened Wrappers
  import opened Ordering

  datatype Class = Orphaned | Active | Unknown

  /** One entry that must be revalidated; identity stands for its recorded file identity. */
  datatype Obligation = Obligation(tool: string, path: string, provider: string, identity: int)

  datatype State = NotAttempted | Passed | Blocked

  datatype Outcome = Outcome(tool: string, path: string, provider: string, state: State, classification: Option<Class>)

  type Key = (string, string)

  function KeyOf(o: Obligation): Key {
    (o.tool, o.path)
  }

  function OutcomeKey(o: Outcome): Key {
    (o.tool, o.path)
  }

  predicate KeyLess(a: Obligation, b: Obligation) {
    LexLess(a.tool + "\0" + a.path, b.tool + "\0" + b.path)
  }

  predicate OutcomeLess(a: Outcome, b: Outcome) {
    LexLess(a.tool + "\0" + a.path, b.tool + "\0" + b.path)
  }

  /** By tool, then by path. */
  lemma KeyLessMeans(a: Obligation, b: Obligation)
    requires '\0' !in a.tool && '\0' !in b.tool
    ensures KeyLess(a, b) <==> LexLess(a.tool, b.tool) || (a.tool == b.tool && LexLess(a.path, b.path))
  {
    hide LexLess;
    if a.tool != b.tool {
      SeparatorOrders(a.tool, b.tool, a.path, b.path);
    } else {
      SamePrefix(a.tool + "\0", a.path, b.path);
      EqualIsNotLess(a.tool);
    }
  }

  lemma {:induction false} EqualIsNotLess(a: string)
    ensures !LexLess(a, a)
  {
    if a != "" {
      EqualIsNotLess(a[1..]);
    }
  }

  lemma OutcomeLessMeans(a: Outcome, b: Outcome)
    requires '\0' !in a.tool && '\0' !in b.tool
    ensures OutcomeLess(a, b) <==> LexLess(a.tool, b.tool) || (a.tool == b.tool && LexLess(a.path, b.path))
  {
    hide LexLess;
    KeyLessMeans(Obligation(a.tool, a.path, "", 0), Obligation(b.tool, b.path, "", 0));
  }

  lemma OrderByKey(list: seq<Obligation>)
    ensures Ordered(SortBy(list, KeyLess), KeyLess)
  {
    LexIsWeakOrder();
    hide LexLess, SortBy;
    assert WeakOrder(KeyLess);
    SortSorts(list, KeyLess);
  }

  lemma OrderOfOutcomes(list: seq<Outcome>)
    ensures Ordered(SortBy(list, OutcomeLess), OutcomeLess)
  {
    LexIsWeakOrder();
    hide LexLess, SortBy;
    assert WeakOrder(OutcomeLess);
    SortSorts(list, OutcomeLess);
  }

  // ----- merging planned and refreshed obligations

  ghost predicate AreConsistent(all: seq<Obligation>) {
    forall i, j :: 0 <= i < j < |all| && KeyOf(all[i]) == KeyOf(all[j]) ==> all[i].provider == all[j].provider
  }

  /** One obligation for every key, the last one with it. */
  ghost predicate IsMerge(merged: seq<Obligation>, all: seq<Obligation>) {
    && (forall i, j :: 0 <= i < j < |merged| ==> KeyOf(merged[i]) != KeyOf(merged[j]))
    && (forall i :: 0 <= i < |merged| ==> IsLastOf(merged[i], all))
    && (forall k :: 0 <= k < |all| ==> exists i :: 0 <= i < |merged| && KeyOf(merged[i]) == KeyOf(all[k]))
  }

  ghost predicate IsLastOf(o: Obligation, all: seq<Obligation>) {
    exists k :: 0 <= k < |all| && all[k] == o && forall l :: k < l < |all| ==> KeyOf(all[l]) != KeyOf(o)
  }

  ghost predicate IsMapOf(m: map<Key, Obligation>, all: seq<Obligation>) {
    && (forall key :: key in m ==> KeyOf(m[key]) == key && IsLastOf(m[key], all))
    && (forall k :: 0 <= k < |all| ==> KeyOf(all[k]) in m)
  }

  lemma MapStep(m: map<Key, Obligation>, all: seq<Obligation>, o: Obligation)
    requires IsMapOf(m, all)
    ensures IsMapOf(m[KeyOf(o) := o], all + [o])
  {
    var now, more := m[KeyOf(o) := o], all + [o];
    forall key | key in now ensures KeyOf(now[key]) == key && IsLastOf(now[key], more) {
      if key == KeyOf(o) {
        assert more[|all|] == o;
      } else {
        var k :| 0 <= k < |all| && all[k] == m[key] && forall l :: k < l < |all| ==> KeyOf(all[l]) != KeyOf(m[key]);
        assert more[k] == m[key];
      }
    }
  }

  method MergeObligations(planned: seq<Obligation>, current: seq<Obligation>) returns (r: Option<seq<Obligation>>)
    ensures r.Some? <==> AreConsistent(planned + current)
    ensures r.Some? ==> IsMerge(r.value, planned + current) && Ordered(r.value, KeyLess)
  {
    hide IsMapOf, IsLastOf, SortBy, KeyLess, Ordered;
    var all := planned + current;
    var merged: map<Key, Obligation> := map[];
    EmptyMap();
    for k := 0 to |all|
      invariant IsMapOf(merged, all[..k]) && AreConsistent(all[..k])
    {
      var o := all[k];
      assert all[..k + 1] == all[..k] + [o];
      if KeyOf(o) in merged && merged[KeyOf(o)].provider != o.provider {
        Conflict(merged, all, k);
        return None;
      }
      StaysConsistent(merged, all[..k], o);
      MapStep(merged, all[..k], o);
      merged := merged[KeyOf(o) := o];
    }
    assert all[..|all|] == all;
    var list := Listed(merged, all);
    r := Some(SortBy(list, KeyLess));
    SortedIsMerge(list, all);
    OrderByKey(list);
  }

  lemma EmptyMap()
    ensures IsMapOf(map[], []) && AreConsistent([])
  {
  }

  lemma Conflict(m: map<Key, Obligation>, all: seq<Obligation>, k: int)
    requires 0 <= k < |all| && IsMapOf(m, all[..k]) && KeyOf(all[k]) in m
             && m[KeyOf(all[k])].provider != all[k].provider
    ensures !AreConsistent(all)
  {
    var front := all[..k];
    var j :| 0 <= j < |front| && front[j] == m[KeyOf(all[k])]
      && forall l :: j < l < |front| ==> KeyOf(front[l]) != KeyOf(m[KeyOf(all[k])]);
    assert all[j] == front[j];
  }

  lemma StaysConsistent(m: map<Key, Obligation>, all: seq<Obligation>, o: Obligation)
    requires IsMapOf(m, all) && AreConsistent(all) && (KeyOf(o) in m ==> m[KeyOf(o)].provider == o.provider)
    ensures AreConsistent(all + [o])
  {
    forall i | 0 <= i < |all| && KeyOf(all[i]) == KeyOf(o) ensures all[i].provider == o.provider {
      var k :| 0 <= k < |all| && all[k] == m[KeyOf(o)]
        && forall l :: k < l < |all| ==> KeyOf(all[l]) != KeyOf(m[KeyOf(o)]);
      assert i <= k;
    }
  }

  method Listed(m: map<Key, Obligation>, ghost all: seq<Obligation>) returns (list: seq<Obligation>)
    requires IsMapOf(m, all)
    ensures IsMerge(list, all)
  {
    hide IsLastOf;
    list := [];
    var left := m.Keys;
    while left != {}
      invariant left <= m.Keys
      invariant forall o :: o in list <==> KeyOf(o) in m.Keys - left && m[KeyOf(o)] == o
      invariant forall i, j :: 0 <= i < j < |list| ==> KeyOf(list[i]) != KeyOf(list[j])
      decreases |left|
    {
      var key :| key in left;
      forall i | 0 <= i < |list| ensures KeyOf(list[i]) != key {
        assert list[i] in list;
      }
      list := list + [m[key]];
      left := left - {key};
    }
    forall i | 0 <= i < |list| ensures IsLastOf(list[i], all) {
      assert list[i] in list;
    }
    forall k | 0 <= k < |all| ensures exists i :: 0 <= i < |list| && KeyOf(list[i]) == KeyOf(all[k]) {
      var o := m[KeyOf(all[k])];
      assert o in list;
      var i :| 0 <= i < |list| && list[i] == o;
    }
  }

  lemma SortedIsMerge(list: seq<Obligation>, all: seq<Obligation>)
    requires IsMerge(list, all)
    ensures IsMerge(SortBy(list, KeyLess), all)
  {
    hide IsLastOf, KeyLess;
    var s := SortBy(list, KeyLess);
    assert Distinct(list);
    SortKeepsMembers(list, KeyLess);
    SortKeepsDistinct(list, KeyLess);
    hide SortBy;
    forall i, j | 0 <= i < j < |s| ensures KeyOf(s[i]) != KeyOf(s[j]) {
      assert s[i] in list && s[j] in list && s[i] != s[j];
      var a :| 0 <= a < |list| && list[a] == s[i];
      var b :| 0 <= b < |list| && list[b] == s[j];
      assert a < b || b < a;
    }
    forall i | 0 <= i < |s| ensures IsLastOf(s[i], all) {
      assert s[i] in list;
      var a :| 0 <= a < |list| && list[a] == s[i];
    }
    forall k | 0 <= k < |all| ensures exists i :: 0 <= i < |s| && KeyOf(s[i]) == KeyOf(all[k]) {
      var a :| 0 <= a < |list| && KeyOf(list[a]) == KeyOf(all[k]);
      assert list[a] in s;
      var i :| 0 <= i < |s| && s[i] == list[a];
    }
  }

  // ----- refusals

  /** Why a component is refused: the agent-state entry it names, if any (a tool of "" is any tool), and whether its
      revalidation is the reason. */
  datatype Refusal = Refusal(tool: string, path: string, targetPath: string, nested: bool)

  /** An agent-state entry the refreshed plan found in the target's way. */
  datatype Match = Match(tool: string, path: string, classification: Option<Class>)

  function MatchFor(matches: seq<Match>, tool: string, path: string): Match {
    if matches == [] then Match("", "", None)
    else if matches[0].path == path && (tool == "" || matches[0].tool == tool) then matches[0]
    else MatchFor(matches[1..], tool, path)
  }

  function RefusalPath(r: Refusal): string {
    if r.path != "" then r.path else r.targetPath
  }

  /** The outcome is at the entry: of the tool, at the path or at the path it leads to. */
  predicate IsAt(o: Outcome, tool: string, path: string, canonical: string) {
    (tool == "" || o.tool == tool) && (o.path == path || o.path == canonical)
  }

  /** The first outcome at the entry is blocked; nothing else changes. */
  function BlockedFirst(outcomes: seq<Outcome>, tool: string, path: string, canonical: string,
                        classification: Option<Class>):
    (r: seq<Outcome>)
    ensures |r| == |outcomes|
  {
    if outcomes == [] then []
    else if IsAt(outcomes[0], tool, path, canonical) then
      [outcomes[0].(state := Blocked, classification := classification)] + outcomes[1..]
    else [outcomes[0]] + BlockedFirst(outcomes[1..], tool, path, canonical, classification)
  }

  /** A matched entry without an outcome gets a blocked one, in its place by key. */
  function WithEntry(outcomes: seq<Outcome>, m: Match, canonical: string): seq<Outcome> {
    if m.path == "" || (exists i :: 0 <= i < |outcomes| && OutcomeKey(outcomes[i]) == (m.tool, canonical)) then outcomes
    else SortBy(outcomes + [Outcome(m.tool, canonical, "", Blocked, m.classification)], OutcomeLess)
  }

  /** What a refusal of the refreshed plan leaves of the outcomes. canonical is where paths lead. */
  function AfterRefusal(outcomes: seq<Outcome>, r: Refusal, matches: seq<Match>,
                        canonical: string -> string): seq<Outcome> {
    var m := MatchFor(matches, r.tool, r.path);
    var blocked := if r.path == "" then outcomes
                   else BlockedFirst(outcomes, r.tool, r.path, canonical(r.path), m.classification);
    if r.nested then WithEntry(blocked, m, canonical(m.path)) else blocked
  }

  lemma {:induction false} FirstIsBlocked(outcomes: seq<Outcome>, tool: string, path: string, canonical: string,
                                          classification: Option<Class>)
    ensures var r := BlockedFirst(outcomes, tool, path, canonical, classification);
            && (forall i :: 0 <= i < |r| ==>
                  r[i] == outcomes[i] || (IsAt(outcomes[i], tool, path, canonical)
                                          && r[i] == outcomes[i].(state := Blocked, classification := classification)))
            && ((exists i :: 0 <= i < |outcomes| && IsAt(outcomes[i], tool, path, canonical)) ==>
                  exists i :: 0 <= i < |r| && IsAt(r[i], tool, path, canonical) && r[i].state == Blocked)
  {
    if outcomes != [] {
      var r := BlockedFirst(outcomes, tool, path, canonical, classification);
      if IsAt(outcomes[0], tool, path, canonical) {
        assert IsAt(r[0], tool, path, canonical) && r[0].state == Blocked;
      } else {
        FirstIsBlocked(outcomes[1..], tool, path, canonical, classification);
        var rest := BlockedFirst(outcomes[1..], tool, path, canonical, classification);
        if i :| 0 <= i < |outcomes| && IsAt(outcomes[i], tool, path, canonical) {
          assert outcomes[1..][i - 1] == outcomes[i];
          var j :| 0 <= j < |rest| && IsAt(rest[j], tool, path, canonical) && rest[j].state == Blocked;
          assert r[j + 1] == rest[j];
        }
      }
    }
  }

  lemma {:induction false} BlockedIs(outcomes: seq<Outcome>, tool: string, path: string, canonical: string,
                                     classification: Option<Class>, n: nat)
    requires n < |outcomes| && IsAt(outcomes[n], tool, path, canonical)
    requires forall i :: 0 <= i < n ==> !IsAt(outcomes[i], tool, path, canonical)
    ensures BlockedFirst(outcomes, tool, path, canonical, classification)
            == outcomes[n := outcomes[n].(state := Blocked, classification := classification)]
  {
    hide IsAt;
    if n > 0 {
      assert IsAt(outcomes[1..][n - 1], tool, path, canonical);
      BlockedIs(outcomes[1..], tool, path, canonical, classification, n - 1);
    }
  }

  lemma {:induction false} NoneIsBlocked(outcomes: seq<Outcome>, tool: string, path: string, canonical: string,
                                         classification: Option<Class>)
    requires forall i :: 0 <= i < |outcomes| ==> !IsAt(outcomes[i], tool, path, canonical)
    ensures BlockedFirst(outcomes, tool, path, canonical, classification) == outcomes
  {
    hide IsAt;
    if outcomes != [] {
      NoneIsBlocked(outcomes[1..], tool, path, canonical, classification);
    }
  }

  lemma {:induction false} MatchIsAt(matches: seq<Match>, tool: string, path: string)
    ensures var m := MatchFor(matches, tool, path);
            m == Match("", "", None) || (m in matches && m.path == path && (tool == "" || m.tool == tool))
  {
    if matches != [] {
      MatchIsAt(matches[1..], tool, path);
    }
  }

  /** The match is the first at the path, of the tool when one is named; an empty one when there is none. */
  lemma {:induction false} MatchIsFirst(matches: seq<Match>, tool: string, path: string)
    ensures (forall i :: 0 <= i < |matches| ==> matches[i].path != path || (tool != "" && matches[i].tool != tool)) ==>
              MatchFor(matches, tool, path) == Match("", "", None)
    ensures forall n :: 0 <= n < |matches| && matches[n].path == path && (tool == "" || matches[n].tool == tool)
                        && (forall i :: 0 <= i < n ==>
                            matches[i].path != path || (tool != "" && matches[i].tool != tool))
                        ==> MatchFor(matches, tool, path) == matches[n]
  {
    if matches != [] {
      var rest := matches[1..];
      MatchIsFirst(rest, tool, path);
      forall n | 0 < n < |matches| && matches[n].path == path && (tool == "" || matches[n].tool == tool)
                 && (forall i :: 0 <= i < n ==> matches[i].path != path || (tool != "" && matches[i].tool != tool))
        ensures MatchFor(matches, tool, path) == matches[n]
      {
        assert rest[n - 1] == matches[n];
        assert forall i :: 0 <= i < n - 1 ==> rest[i] == matches[i + 1];
      }
    }
  }

  /** The entry the refusal names is among the matches. */
  ghost predicate IsMatched(matches: seq<Match>, r: Refusal) {
    exists i :: 0 <= i < |matches| && matches[i].path == r.path && (r.tool == "" || matches[i].tool == r.tool)
  }

  lemma {:induction false} MatchedHasPath(matches: seq<Match>, r: Refusal)
    requires IsMatched(matches, r)
    ensures MatchFor(matches, r.tool, r.path).path == r.path
  {
    var i :| 0 <= i < |matches| && matches[i].path == r.path && (r.tool == "" || matches[i].tool == r.tool);
    if i > 0 {
      assert matches[1..][i - 1] == matches[i];
      MatchedHasPath(matches[1..], r);
    }
  }

  /** The outcomes with the first one at the refused entry blocked, and classified as its match is. */
  lemma PlainRefusal(outcomes: seq<Outcome>, r: Refusal, matches: seq<Match>, canonical: string -> string, n: nat)
    requires n < |outcomes| && r.path != "" && !r.nested
    requires r.tool == "" || outcomes[n].tool == r.tool
    requires outcomes[n].path == r.path || outcomes[n].path == canonical(r.path)
    requires forall i :: 0 <= i < n ==>
               (r.tool != "" && outcomes[i].tool != r.tool)
               || (outcomes[i].path != r.path && outcomes[i].path != canonical(r.path))
    ensures var c := MatchFor(matches, r.tool, r.path).classification;
            AfterRefusal(outcomes, r, matches, canonical) ==
            outcomes[n := outcomes[n].(state := Blocked, classification := c)]
  {
    BlockedIs(outcomes, r.tool, r.path, canonical(r.path), MatchFor(matches, r.tool, r.path).classification, n);
  }

  /** A refusal over an entry inside the target also reports the entry where the path leads; the outcomes stay in the
      order of their keys, and gain one at most. */
  lemma NestedRefusal(outcomes: seq<Outcome>, r: Refusal, matches: seq<Match>, canonical: string -> string)
    requires r.nested && r.path != "" && IsMatched(matches, r)
    ensures var m := MatchFor(matches, r.tool, r.path);
            var plain, after := AfterRefusal(outcomes, r.(nested := false), matches, canonical),
                                AfterRefusal(outcomes, r, matches, canonical);
            if exists i :: 0 <= i < |outcomes| && outcomes[i].tool == m.tool && outcomes[i].path == canonical(m.path)
            then after == plain
            else
              && multiset(after) ==
                 multiset(plain) + multiset{Outcome(m.tool, canonical(m.path), "", Blocked, m.classification)}
              && Ordered(after, OutcomeLess)
  {
    hide OutcomeLess, Ordered, SortBy, IsAt;
    var m := MatchFor(matches, r.tool, r.path);
    MatchedHasPath(matches, r);
    var plain := AfterRefusal(outcomes, r.(nested := false), matches, canonical);
    FirstIsBlocked(outcomes, r.tool, r.path, canonical(r.path), m.classification);
    assert forall i :: 0 <= i < |outcomes| ==> OutcomeKey(plain[i]) == OutcomeKey(outcomes[i]);
    var entry := Outcome(m.tool, canonical(m.path), "", Blocked, m.classification);
    OrderOfOutcomes(plain + [entry]);
    SortKeeps(plain + [entry], OutcomeLess);
  }

  ghost predicate ShowsBlocked(outcomes: seq<Outcome>, r: Refusal, canonical: string) {
    exists i :: 0 <= i < |outcomes| && IsAt(outcomes[i], r.tool, r.path, canonical) && outcomes[i].state == Blocked
  }

  /** When the refreshed plan refuses because of an entry it matched, the entry is never left out of the report: some
      outcome at it is blocked. And an outcome that is not at the entry stays in the report as it was. */
  lemma RefusalIsShown(outcomes: seq<Outcome>, r: Refusal, matches: seq<Match>, canonical: string -> string)
    ensures var after := AfterRefusal(outcomes, r, matches, canonical);
            && (r.nested && r.path != "" && IsMatched(matches, r) ==>
                  ShowsBlocked(after, r, canonical(r.path)))
            && (forall o :: o in outcomes && !IsAt(o, r.tool, r.path, canonical(r.path)) ==> o in after)
  {
    hide SortBy, OutcomeLess, IsAt;
    var m := MatchFor(matches, r.tool, r.path);
    MatchIsAt(matches, r.tool, r.path);
    if IsMatched(matches, r) {
      MatchedHasPath(matches, r);
    }
    var at := canonical(r.path);
    var first := if r.path == "" then outcomes else BlockedFirst(outcomes, r.tool, r.path, at, m.classification);
    FirstIsBlocked(outcomes, r.tool, r.path, at, m.classification);
    forall o | o in outcomes && !IsAt(o, r.tool, r.path, at) ensures o in first {
      var i :| 0 <= i < |outcomes| && outcomes[i] == o;
      assert first[i] == o;
    }
    if r.nested {
      EntryJoins(first, m, canonical(m.path));
      if r.path != "" && m.path != "" {
        EntryIsAt(first, m, r, at);
        BlockedStays(outcomes, first, m, r, at);
      }
    }
  }

  /** Joining an entry removes nothing, and an entry that was missing is there, blocked. */
  lemma EntryJoins(outcomes: seq<Outcome>, m: Match, canonical: string)
    ensures forall o :: o in outcomes ==> o in WithEntry(outcomes, m, canonical)
    ensures m.path != "" && (forall i :: 0 <= i < |outcomes| ==> OutcomeKey(outcomes[i]) != (m.tool, canonical)) ==>
              Outcome(m.tool, canonical, "", Blocked, m.classification) in WithEntry(outcomes, m, canonical)
  {
    var entry := Outcome(m.tool, canonical, "", Blocked, m.classification);
    SortKeepsMembers(outcomes + [entry], OutcomeLess);
    hide SortBy, OutcomeLess;
    assert entry in outcomes + [entry];
  }

  lemma EntryIsAt(outcomes: seq<Outcome>, m: Match, r: Refusal, canonical: string)
    requires r.tool == "" || m.tool == r.tool
    ensures IsAt(Outcome(m.tool, canonical, "", Blocked, m.classification), r.tool, r.path, canonical)
    ensures forall i :: 0 <= i < |outcomes| && OutcomeKey(outcomes[i]) == (m.tool, canonical) ==>
              IsAt(outcomes[i], r.tool, r.path, canonical)
  {
  }

  lemma BlockedStays(outcomes: seq<Outcome>, first: seq<Outcome>, m: Match, r: Refusal, canonical: string)
    requires m.path != "" && first == BlockedFirst(outcomes, r.tool, r.path, canonical, m.classification)
    requires r.tool == "" || m.tool == r.tool
    ensures ShowsBlocked(WithEntry(first, m, canonical), r, canonical)
  {
    hide IsAt, WithEntry, BlockedFirst;
    FirstIsBlocked(outcomes, r.tool, r.path, canonical, m.classification);
    EntryIsAt(first, m, r, canonical);
    EntryJoins(first, m, canonical);
    var after := WithEntry(first, m, canonical);
    if i :| 0 <= i < |first| && IsAt(first[i], r.tool, r.path, canonical) && first[i].state == Blocked {
      assert first[i] in after;
      var j :| 0 <= j < |after| && after[j] == first[i];
    } else {
      forall i | 0 <= i < |first| ensures !IsAt(first[i], r.tool, r.path, canonical) {
        KeyDecidesAt(outcomes[i], first[i], r, canonical);
      }
      var entry := Outcome(m.tool, canonical, "", Blocked, m.classification);
      assert entry in after;
      var j :| 0 <= j < |after| && after[j] == entry;
    }
  }

  lemma KeyDecidesAt(a: Outcome, b: Outcome, r: Refusal, canonical: string)
    ensures OutcomeKey(a) == OutcomeKey(b) ==>
              (IsAt(a, r.tool, r.path, canonical) <==> IsAt(b, r.tool, r.path, canonical))
  {
  }

  // ----- the barrier

  /** The refreshed plan: failed, without the component, refused, or with the obligations it found now. */
  datatype Refreshed =
    | PlanFailed
    | NoComponent
    | RefusedNow(refusal: Refusal, matches: seq<Match>)
    | Current(obligations: seq<Obligation>, sameTarget: bool)

  /** What the barrier meets: the context at each look, the planned refusal, the refreshed plan, where paths lead, and
      for each obligation its identity before and after, its tool's provider, and its class now (None when revalidation
      fails). */
  datatype World = World(ended: int -> bool, refused: Option<Refusal>, refreshed: Refreshed,
                         canonical: string -> string,
                         unchangedBefore: Obligation -> bool, provider: string -> Option<string>,
                         revalidate: Obligation -> Option<Class>, targetUnchanged: bool,
                         unchangedAfter: Obligation -> bool)

  function FreshOutcome(o: Obligation): Outcome {
    Outcome(o.tool, o.path, o.provider, NotAttempted, None)
  }

  function FreshOutcomes(obligations: seq<Obligation>): (r: seq<Outcome>)
    ensures IsReport(obligations, r, 0, -1)
  {
    seq(|obligations|, i requires 0 <= i < |obligations| => FreshOutcome(obligations[i]))
  }

  predicate IsReady(o: Obligation, w: World) {
    w.unchangedBefore(o) && w.provider(o.tool) == Some(o.provider)
  }

  /** Outcomes before passed have passed, the blocked one (if any) is blocked, the others were not attempted. */
  ghost predicate IsReport(obligations: seq<Obligation>, outcomes: seq<Outcome>, passed: int, blocked: int) {
    && |outcomes| == |obligations|
    && forall i :: 0 <= i < |obligations| ==>
         && OutcomeKey(outcomes[i]) == KeyOf(obligations[i]) && outcomes[i].provider == obligations[i].provider
         && outcomes[i].state == (if i == blocked then Blocked else if i < passed then Passed else NotAttempted)
         && (outcomes[i].state == Passed ==> outcomes[i].classification == Some(Orphaned))
         && (outcomes[i].state == NotAttempted ==> outcomes[i].classification == None)
  }

  /** Everything that must hold for the mutation to go ahead. */
  ghost predicate MayMutate(obligations: seq<Obligation>, w: World) {
    && (forall i :: 0 <= i < |obligations| ==>
          IsReady(obligations[i], w) && w.revalidate(obligations[i]) == Some(Orphaned)
          && w.unchangedAfter(obligations[i]))
    && w.targetUnchanged && forall k :: 0 <= k <= |obligations| + 1 ==> !w.ended(k)
  }

  /** Mutation may go ahead exactly when every entry has its identity before and after, its own provider, and is
      classified as orphaned, the target has not changed, and the context held at every look. */
  lemma MutationMeans(obligations: seq<Obligation>, w: World)
    ensures MayMutate(obligations, w) <==>
            && (forall i :: 0 <= i < |obligations| ==> w.unchangedBefore(obligations[i]))
            && (forall i :: 0 <= i < |obligations| ==> w.provider(obligations[i].tool) == Some(obligations[i].provider))
            && (forall i :: 0 <= i < |obligations| ==> w.revalidate(obligations[i]) == Some(Orphaned))
            && (forall i :: 0 <= i < |obligations| ==> w.unchangedAfter(obligations[i]))
            && w.targetUnchanged && forall k :: 0 <= k < |obligations| + 2 ==> !w.ended(k)
  {
  }

  class Report {
    var outcomes: seq<Outcome>
    var blockingPath: Option<string>

    constructor (obligations: seq<Obligation>)
      ensures outcomes == FreshOutcomes(obligations) && blockingPath == None
    {
      outcomes := FreshOutcomes(obligations);
      blockingPath := None;
    }

    method Reset(obligations: seq<Obligation>)
      modifies this
      ensures IsReport(obligations, outcomes, 0, -1) && blockingPath == None
    {
      outcomes := FreshOutcomes(obligations);
      blockingPath := None;
    }

    /** The first outcome at the entry is blocked. */
    method BlockOutcomeAtPath(tool: string, path: string, canonical: string -> string, classification: Option<Class>)
      modifies this`outcomes
      ensures outcomes == if path == "" then old(outcomes)
                          else BlockedFirst(old(outcomes), tool, path, canonical(path), classification)
    {
      if path == "" {
        return;
      }
      var canonicalPath := canonical(path);
      for i := 0 to |outcomes|
        invariant outcomes == old(outcomes)
        invariant forall j :: 0 <= j < i ==> !IsAt(outcomes[j], tool, path, canonicalPath)
      {
        if (tool != "" && outcomes[i].tool != tool) || (outcomes[i].path != path && outcomes[i].path != canonicalPath) {
          continue;
        }
        BlockedIs(outcomes, tool, path, canonicalPath, classification, i);
        outcomes := outcomes[i := outcomes[i].(state := Blocked, classification := classification)];
        return;
      }
      NoneIsBlocked(outcomes, tool, path, canonicalPath, classification);
    }

    /** An entry without an outcome is added as a blocked one. */
    method EnsureBlockedOutcome(m: Match, canonical: string -> string)
      modifies this`outcomes
      ensures outcomes == WithEntry(old(outcomes), m, canonical(m.path))
    {
      hide SortBy, OutcomeLess;
      if m.path == "" {
        return;
      }
      var entryPath := canonical(m.path);
      for i := 0 to |outcomes|
        invariant outcomes == old(outcomes)
        invariant forall j :: 0 <= j < i ==> OutcomeKey(outcomes[j]) != (m.tool, entryPath)
      {
        if outcomes[i].tool == m.tool && outcomes[i].path == entryPath {
          assert OutcomeKey(outcomes[i]) == (m.tool, entryPath);
          return;
        }
      }
      outcomes := SortBy(outcomes + [Outcome(m.tool, entryPath, "", Blocked, m.classification)], OutcomeLess);
    }

    /** The refreshed plan refuses the component. */
    method Refuse(r: Refusal, matches: seq<Match>, canonical: string -> string)
      modifies this
      ensures outcomes == AfterRefusal(old(outcomes), r, matches, canonical) && blockingPath == Some(RefusalPath(r))
    {
      hide BlockedFirst, WithEntry, MatchFor;
      blockingPath := Some(RefusalPath(r));
      var m := MatchFor(matches, r.tool, r.path);
      BlockOutcomeAtPath(r.tool, r.path, canonical, m.classification);
      if r.nested {
        EnsureBlockedOutcome(m, canonical);
      }
    }

    method Set(o: Obligation, state: State, classification: Option<Class>, ghost obligations: seq<Obligation>,
               ghost n: int,
               ghost passed: int, ghost blocked: int)
      requires IsReport(obligations, outcomes, passed, blocked) && 0 <= n < |obligations| && o == obligations[n]
      requires forall i, j :: 0 <= i < j < |obligations| ==> KeyOf(obligations[i]) != KeyOf(obligations[j])
      modifies this`outcomes
      ensures outcomes == old(outcomes)[n := old(outcomes)[n].(state := state, classification := classification)]
    {
      for i := 0 to |outcomes|
        invariant outcomes == old(outcomes) && i <= n
      {
        if OutcomeKey(outcomes[i]) == KeyOf(o) {
          assert i == n;
          outcomes := outcomes[i := outcomes[i].(state := state, classification := classification)];
          return;
        }
      }
    }

    method PassObligation(o: Obligation, ghost obligations: seq<Obligation>, ghost n: int)
      requires IsReport(obligations, outcomes, n, -1) && 0 <= n < |obligations| && o == obligations[n]
      requires forall i, j :: 0 <= i < j < |obligations| ==> KeyOf(obligations[i]) != KeyOf(obligations[j])
      modifies this`outcomes
      ensures IsReport(obligations, outcomes, n + 1, -1)
    {
      Set(o, Passed, Some(Orphaned), obligations, n, n, -1);
    }

    method BlockObligation(o: Obligation, classification: Option<Class>, ghost obligations: seq<Obligation>,
                           ghost n: int, ghost passed: int)
      requires IsReport(obligations, outcomes, passed, -1) && 0 <= n < |obligations| && o == obligations[n]
      requires forall i, j :: 0 <= i < j < |obligations| ==> KeyOf(obligations[i]) != KeyOf(obligations[j])
      modifies this
      ensures IsReport(obligations, outcomes, passed, n) && blockingPath == Some(o.path)
      ensures outcomes[n].classification == classification
    {
      blockingPath := Some(o.path);
      Set(o, Blocked, classification, obligations, n, passed, -1);
    }
  }

  /** Where the barrier stopped: before any obligation, by the refreshed plan's refusal, or later. */
  datatype Ending =
    | Early
    | RefusedAgain
    | Unready(at: int)
    | Stopped(at: int)
    | Failed(at: int)
    | TargetChanged
    | ChangedAfter(at: int)
    | Late
    | Done

  /** The report fits the ending: before the obligations it shows the planned ones as not attempted, but for what a
      refusal blocks; the revalidation loop leaves a passed prefix, at most one blocked outcome, and a suffix that was
      not attempted. */
  ghost predicate Fits(e: Ending, planned: seq<Obligation>, obligations: seq<Obligation>, outcomes: seq<Outcome>,
                       w: World) {
    match e
    case Early => IsReport(planned, outcomes, 0, -1)
    case RefusedAgain =>
      && w.refreshed.RefusedNow?
      && outcomes == AfterRefusal(FreshOutcomes(planned), w.refreshed.refusal, w.refreshed.matches, w.canonical)
    case Unready(at) => 0 <= at < |obligations| && IsReport(obligations, outcomes, 0, at)
                        && outcomes[at].classification == None && !IsReady(obligations[at], w)
                        && forall i :: 0 <= i < at ==> IsReady(obligations[i], w)
    case Stopped(at) => 0 <= at < |obligations| && IsReport(obligations, outcomes, at, -1) && w.ended(at + 1)
    case Failed(at) => 0 <= at < |obligations| && IsReport(obligations, outcomes, at, at)
                       && w.revalidate(obligations[at]) == outcomes[at].classification != Some(Orphaned)
                       && forall i :: 0 <= i < at ==> w.revalidate(obligations[i]) == Some(Orphaned)
    case TargetChanged => IsReport(obligations, outcomes, |obligations|, -1) && !w.targetUnchanged
    case ChangedAfter(at) => 0 <= at < |obligations| && IsReport(obligations, outcomes, |obligations|, at)
                             && outcomes[at].classification == Some(Orphaned) && !w.unchangedAfter(obligations[at])
    case Late => IsReport(obligations, outcomes, |obligations|, -1) && w.ended(|obligations| + 1)
    case Done => IsReport(obligations, outcomes, |obligations|, -1)
  }

  /** The path the report blames: the refusal's, the obligation's the barrier stopped at, or the target's. */
  ghost function BlamedPath(e: Ending, obligations: seq<Obligation>, w: World, target: string): Option<string> {
    match e
    case Done => None
    case RefusedAgain => if w.refreshed.RefusedNow? then Some(RefusalPath(w.refreshed.refusal)) else None
    case Early => Some(if !w.ended(0) && w.refused.Some? then RefusalPath(w.refused.value) else target)
    case Unready(at) => Some(if 0 <= at < |obligations| then obligations[at].path else target)
    case Failed(at) => Some(if 0 <= at < |obligations| then obligations[at].path else target)
    case ChangedAfter(at) => Some(if 0 <= at < |obligations| then obligations[at].path else target)
    case Stopped(_) => Some(target)
    case TargetChanged => Some(target)
    case Late => Some(target)
  }

  /** The context has not ended at the first look, neither plan refuses, and the target is the one refreshed. */
  predicate IsCurrent(w: World) {
    !w.ended(0) && w.refused == None && w.refreshed.Current? && w.refreshed.sameTarget
  }

  /** The barrier goes on to the refreshed plan, which refuses. */
  predicate IsRefusedAgain(w: World) {
    !w.ended(0) && w.refused == None && w.refreshed.RefusedNow?
  }

  /** Mutation is allowed exactly when the refreshed plan still stands, the obligations of both plans agree on their
      providers, and every one of their union passes; whatever stops it, the report fits where it stopped. */
  method ValidateBeforeMutation(planned: seq<Obligation>, target: string, w: World)
    returns (ok: bool, report: Report, obligations: seq<Obligation>, e: Ending)
    ensures Fits(e, planned, obligations, report.outcomes, w) && (ok <==> e == Done)
    ensures report.blockingPath == BlamedPath(e, obligations, w, target)
    ensures e == RefusedAgain <==> IsRefusedAgain(w)
    ensures e == Early <==> !IsRefusedAgain(w)
                            && (!IsCurrent(w) || !AreConsistent(planned + w.refreshed.obligations))
    ensures e != Early && e != RefusedAgain ==> IsMerge(obligations, planned + w.refreshed.obligations)
    ensures ok <==> e != Early && e != RefusedAgain && MayMutate(obligations, w)
    ensures e != Early && e != RefusedAgain ==> Ordered(obligations, KeyLess)
    ensures report.blockingPath == None <==> ok
    ensures e.Unready? || e.Failed? || e.ChangedAfter? ==>
              forall i :: 0 <= i < |report.outcomes| && report.outcomes[i].state == Blocked ==>
                report.blockingPath == Some(report.outcomes[i].path)
    ensures e == RefusedAgain ==>
              var r := w.refreshed.refusal;
              report.blockingPath == Some(if r.path != "" then r.path else r.targetPath)
    ensures e.Stopped? || e == TargetChanged || e == Late ==> report.blockingPath == Some(target)
  {
    hide Ordered, KeyLess;
    hide IsMerge, AreConsistent, AfterRefusal, IsReport;
    report := new Report(planned);
    obligations, e, ok := [], Early, false;
    if w.ended(0) {
      report.blockingPath := Some(target);
      return;
    }
    if w.refused.Some? {
      report.blockingPath := Some(RefusalPath(w.refused.value));
      return;
    }
    report.blockingPath := Some(target);
    match w.refreshed {
      case PlanFailed => return;
      case NoComponent => return;
      case RefusedNow(refusal, matches) =>
        report.Refuse(refusal, matches, w.canonical);
        return false, report, [], RefusedAgain;
      case Current(current, sameTarget) =>
        if !sameTarget {
          return;
        }
        var merged := MergeObligations(planned, current);
        if merged == None {
          return;
        }
        obligations := merged.value;
        MergedKeysDiffer(obligations, planned + current);
        report.Reset(merged.value);
        e := CheckReady(report, merged.value, w);
        if e != Done {
          BlockedPath(e, obligations, report.outcomes, w);
          return;
        }
        e := Revalidate(report, merged.value, target, w);
        if e != Done {
          BlockedPath(e, obligations, report.outcomes, w);
          return;
        }
        e := CheckAfter(report, merged.value, target, w);
        BlockedPath(e, obligations, report.outcomes, w);
        ok := e == Done;
    }
  }

  lemma BlockedPath(e: Ending, obligations: seq<Obligation>, outcomes: seq<Outcome>, w: World)
    requires Fits(e, [], obligations, outcomes, w)
    ensures e.Unready? || e.Failed? || e.ChangedAfter? ==>
              && 0 <= e.at < |obligations|
              && forall i :: 0 <= i < |outcomes| && outcomes[i].state == Blocked ==>
                   outcomes[i].path == obligations[e.at].path
  {
  }

  lemma MergedKeysDiffer(merged: seq<Obligation>, all: seq<Obligation>)
    requires IsMerge(merged, all)
    ensures KeysDiffer(merged)
  {
    hide IsLastOf;
  }

  ghost predicate KeysDiffer(obligations: seq<Obligation>) {
    forall i, j :: 0 <= i < j < |obligations| ==> KeyOf(obligations[i]) != KeyOf(obligations[j])
  }

  /** Identities and providers, before anything is revalidated. */
  method CheckReady(report: Report, obligations: seq<Obligation>, w: World) returns (e: Ending)
    requires KeysDiffer(obligations) && IsReport(obligations, report.outcomes, 0, -1)
    modifies report
    ensures e == Done || e.Unready?
    ensures e.Unready? ==>
              && Fits(e, [], obligations, report.outcomes, w) && !MayMutate(obligations, w)
              && 0 <= e.at < |obligations| && report.blockingPath == Some(obligations[e.at].path)
    ensures e == Done ==> forall i :: 0 <= i < |obligations| ==> IsReady(obligations[i], w)
    ensures e == Done ==> report.outcomes == old(report.outcomes) && report.blockingPath == old(report.blockingPath)
  {
    for i := 0 to |obligations|
      invariant report.outcomes == old(report.outcomes) && report.blockingPath == old(report.blockingPath)
      invariant forall j :: 0 <= j < i ==> IsReady(obligations[j], w)
    {
      var o := obligations[i];
      if !w.unchangedBefore(o) || w.provider(o.tool) != Some(o.provider) {
        report.BlockObligation(o, None, obligations, i, 0);
        return Unready(i);
      }
    }
    return Done;
  }

  /** Each entry is classified again, in order, until one does not pass. */
  method Revalidate(report: Report, obligations: seq<Obligation>, target: string, w: World) returns (e: Ending)
    requires KeysDiffer(obligations) && IsReport(obligations, report.outcomes, 0, -1)
    modifies report
    ensures e == Done || e.Stopped? || e.Failed?
    ensures Fits(e, [], obligations, report.outcomes, w)
    ensures e != Done ==> !MayMutate(obligations, w) && report.blockingPath == BlamedPath(e, obligations, w, target)
    ensures e == Done ==> report.blockingPath == old(report.blockingPath)
    ensures e == Done ==> (forall i :: 0 <= i < |obligations| ==> w.revalidate(obligations[i]) == Some(Orphaned))
                          && forall k :: 1 <= k <= |obligations| ==> !w.ended(k)
  {
    for i := 0 to |obligations|
      invariant IsReport(obligations, report.outcomes, i, -1) && report.blockingPath == old(report.blockingPath)
      invariant forall j :: 0 <= j < i ==> w.revalidate(obligations[j]) == Some(Orphaned)
      invariant forall k :: 1 <= k <= i ==> !w.ended(k)
    {
      var o := obligations[i];
      if w.ended(i + 1) {
        report.blockingPath := Some(target);
        return Stopped(i);
      }
      var classification := w.revalidate(o);
      if classification != Some(Orphaned) {
        report.BlockObligation(o, classification, obligations, i, i);
        return Failed(i);
      }
      report.PassObligation(o, obligations, i);
    }
    return Done;
  }

  /** The target, the entries and the context once more. */
  method CheckAfter(report: Report, obligations: seq<Obligation>, target: string, w: World) returns (e: Ending)
    requires KeysDiffer(obligations) && IsReport(obligations, report.outcomes, |obligations|, -1)
    requires report.blockingPath == None
    requires forall i :: 0 <= i < |obligations| ==>
               IsReady(obligations[i], w) && w.revalidate(obligations[i]) == Some(Orphaned)
    requires forall k :: 0 <= k <= |obligations| ==> !w.ended(k)
    modifies report
    ensures e == Done || e == TargetChanged || e.ChangedAfter? || e == Late
    ensures Fits(e, [], obligations, report.outcomes, w) && report.blockingPath == BlamedPath(e, obligations, w, target)
    ensures e == Done <==> MayMutate(obligations, w)
  {
    if !w.targetUnchanged {
      report.blockingPath := Some(target);
      return TargetChanged;
    }
    for i := 0 to |obligations|
      invariant report.outcomes == old(report.outcomes) && report.blockingPath == None
      invariant forall j :: 0 <= j < i ==> w.unchangedAfter(obligations[j])
    {
      if !w.unchangedAfter(obligations[i]) {
        report.BlockObligation(obligations[i], Some(Orphaned), obligations, i, |obligations|);
        return ChangedAfter(i);
      }
    }
    if w.ended(|obligations| + 1) {
      report.blockingPath := Some(target);
      return Late;
    }
    return Done;
  }

  /** When mutation may go ahead, every planned and every refreshed obligation was classified orphaned now, with its own
      provider; a refreshed obligation replaced a planned one with the same key. */
  lemma EveryObligationPassed(planned: seq<Obligation>, w: World, obligations: seq<Obligation>, o: Obligation)
    requires IsCurrent(w) && AreConsistent(planned + w.refreshed.obligations)
    requires IsMerge(obligations, planned + w.refreshed.obligations) && MayMutate(obligations, w)
    requires o in planned || o in w.refreshed.obligations
    ensures exists i :: 0 <= i < |obligations| && KeyOf(obligations[i]) == KeyOf(o)
                        && obligations[i].provider == o.provider
                        && w.revalidate(obligations[i]) == Some(Orphaned) && w.provider(o.tool) == Some(o.provider)
                        && w.unchangedBefore(obligations[i]) && w.unchangedAfter(obligations[i])
    ensures w.targetUnchanged && forall k :: 0 <= k <= |obligations| + 1 ==> !w.ended(k)
  {
    hide IsMerge, AreConsistent;
    var all := planned + w.refreshed.obligations;
    assert o in all;
    var i := MergedEntry(obligations, all, o);
    assert IsReady(obligations[i], w);
  }

  lemma MergedIsLast(merged: seq<Obligation>, all: seq<Obligation>, o: Obligation)
    requires IsMerge(merged, all)
    ensures o in merged <==> IsLastOf(o, all)
  {
    hide KeyOf;
    if IsLastOf(o, all) {
      var k :| 0 <= k < |all| && all[k] == o && forall l :: k < l < |all| ==> KeyOf(all[l]) != KeyOf(o);
      var i :| 0 <= i < |merged| && KeyOf(merged[i]) == KeyOf(all[k]);
      OnlyOneIsLast(merged[i], o, all);
    }
    if o in merged {
      var i :| 0 <= i < |merged| && merged[i] == o;
      assert IsLastOf(merged[i], all);
    }
  }

  lemma OnlyOneIsLast(a: Obligation, b: Obligation, all: seq<Obligation>)
    requires IsLastOf(a, all) && IsLastOf(b, all) && KeyOf(a) == KeyOf(b)
    ensures a == b
  {
    hide KeyOf;
    var k :| 0 <= k < |all| && all[k] == a && forall l :: k < l < |all| ==> KeyOf(all[l]) != KeyOf(a);
    var m :| 0 <= m < |all| && all[m] == b && forall l :: m < l < |all| ==> KeyOf(all[l]) != KeyOf(b);
    assert k == m;
  }

  lemma PlannedIsLast(planned: seq<Obligation>, current: seq<Obligation>, k: int)
    requires KeysDiffer(planned) && KeysDiffer(current) && 0 <= k < |planned|
    requires forall j :: 0 <= j < |current| && KeyOf(current[j]) == KeyOf(planned[k]) ==> current[j] == planned[k]
    ensures IsLastOf(planned[k], planned + current)
  {
    hide KeyOf;
    var all, o := planned + current, planned[k];
    if j :| 0 <= j < |current| && KeyOf(current[j]) == KeyOf(o) {
      assert all[|planned| + j] == o;
      forall l | |planned| + j < l < |all| ensures KeyOf(all[l]) != KeyOf(o) {
        assert all[l] == current[l - |planned|];
      }
    } else {
      assert all[k] == o;
      forall l | k < l < |all| ensures KeyOf(all[l]) != KeyOf(o) {
        assert all[l] == if l < |planned| then planned[l] else current[l - |planned|];
      }
    }
  }

  lemma CurrentIsLast(planned: seq<Obligation>, current: seq<Obligation>, j: int)
    requires KeysDiffer(current) && 0 <= j < |current|
    ensures IsLastOf(current[j], planned + current)
  {
    hide KeyOf;
    var all := planned + current;
    assert all[|planned| + j] == current[j];
    forall l | |planned| + j < l < |all| ensures KeyOf(all[l]) != KeyOf(current[j]) {
      assert all[l] == current[l - |planned|];
    }
  }

  /** A planned obligation's own identity is among those checked exactly when no refreshed obligation with its key
      differs from it: one that does takes its place. */
  lemma PlannedIdentityChecked(planned: seq<Obligation>, current: seq<Obligation>, merged: seq<Obligation>, k: int)
    requires KeysDiffer(planned) && KeysDiffer(current) && IsMerge(merged, planned + current) && 0 <= k < |planned|
    ensures planned[k] in merged <==>
            forall j :: 0 <= j < |current| && KeyOf(current[j]) == KeyOf(planned[k]) ==> current[j] == planned[k]
  {
    MergedIsLast(merged, planned + current, planned[k]);
    hide KeyOf, IsMerge, IsLastOf, KeysDiffer;
    if planned[k] in merged {
      forall j | 0 <= j < |current| && KeyOf(current[j]) == KeyOf(planned[k]) ensures current[j] == planned[k] {
        CurrentIsLast(planned, current, j);
        OnlyOneIsLast(current[j], planned[k], planned + current);
      }
    } else if forall j :: 0 <= j < |current| && KeyOf(current[j]) == KeyOf(planned[k]) ==> current[j] == planned[k] {
      PlannedIsLast(planned, current, k);
      assert false;
    }
  }

  /** So mutation can go ahead although the entry is no longer the one that was planned for: the refreshed plan saw
      another identity under the same key, and only that one is checked. */
  lemma ReplacedIdentityPasses() returns (planned: Obligation, current: Obligation, w: World)
    ensures IsCurrent(w) && w.refreshed.obligations == [current] && AreConsistent([planned] + [current])
    ensures IsMerge([current], [planned] + [current]) && MayMutate([current], w)
    ensures !w.unchangedBefore(planned) && !w.unchangedAfter(planned)
  {
    planned, current := Obligation("t", "/p", "q", 1), Obligation("t", "/p", "q", 2);
    w := World(i => false, None, Current([current], true), p => p, (o: Obligation) => o.identity == 2, t => Some("q"),
               o => Some(Orphaned), true, (o: Obligation) => o.identity == 2);
    var all := [planned] + [current];
    assert all[1] == current;
    assert IsLastOf(current, all);
  }

  lemma MergedEntry(merged: seq<Obligation>, all: seq<Obligation>, o: Obligation) returns (i: int)
    requires IsMerge(merged, all) && AreConsistent(all) && o in all
    ensures 0 <= i < |merged| && KeyOf(merged[i]) == KeyOf(o) && merged[i].provider == o.provider
  {
    hide IsLastOf, AreConsistent;
    var k :| 0 <= k < |all| && all[k] == o;
    i :| 0 <= i < |merged| && KeyOf(merged[i]) == KeyOf(all[k]);
    SameProvider(merged[i], all, k);
  }

  lemma SameProvider(last: Obligation, all: seq<Obligation>, k: int)
    requires IsLastOf(last, all) && AreConsistent(all) && 0 <= k < |all| && KeyOf(all[k]) == KeyOf(last)
    ensures all[k].provider == last.provider
  {
    var l :| 0 <= l < |all| && all[l] == last && forall m :: l < m < |all| ==> KeyOf(all[m]) != KeyOf(last);
    assert k <= l;
  }
}
