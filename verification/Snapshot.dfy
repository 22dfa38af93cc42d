/** Merging plan, audit and inventory evidence onto mutation owners. */
module Snapshot {
  import opened Wrappers
  import opened Ordering
  import opened PathKeys
  import opened CleanupTargets
  import opened ByteAccounting
  import opened ByteAccountingTheorems
  import opened SnapshotRows
  import SnapshotForest

  lemma {:induction false} ShownAfter(was: seq<Component>, i: int, c: Component, more: multiset<Identity>)
    requires 0 <= i < |was| && RowIdentities(c.rows) == RowIdentities(was[i].rows) + more
    ensures Shown(was[i := c]) == Shown(was) + more
  {
    hide RowIdentities;
    var now := was[i := c];
    if i < |was| - 1 {
      ShownAfter(was[..|was| - 1], i, c, more);
      assert now[..|now| - 1] == was[..|was| - 1][i := c];
    } else {
      assert now[..|now| - 1] == was[..|was| - 1];
    }
  }

  lemma ShownWithRow(was: seq<Component>, i: int, e: Evidence, relation: Relation)
    requires 0 <= i < |was|
    ensures Shown(was[i := WithRow(was[i], e, relation)]) == Shown(was) + multiset{IdentityOf(e)}
  {
    hide Shown, SortKey;
    RowAdded(was[i], e, relation);
    ShownAfter(was, i, WithRow(was[i], e, relation), multiset{IdentityOf(e)});
  }

  lemma RowAdded(c: Component, e: Evidence, relation: Relation)
    ensures RowIdentities(WithRow(c, e, relation).rows) == RowIdentities(c.rows) + multiset{IdentityOf(e)}
  {
    hide SortKey;
    var rows := WithRow(c, e, relation).rows;
    assert rows[..|rows| - 1] == c.rows;
  }

  lemma ShownAppend(cs: seq<Component>, c: Component)
    ensures Shown(cs + [c]) == Shown(cs) + RowIdentities(c.rows)
  {
    assert (cs + [c])[..|cs|] == cs;
  }

  // ----- the plan's own rows

  ghost predicate HasKeys(components: seq<Component>, cs: seq<PlanComponent>) {
    |components| >= |cs| && forall i :: 0 <= i < |cs| ==>
      components[i].key == cs[i].key
      && components[i].owner == cs[i].owner
      && components[i].decision == cs[i].decision
  }

  /** The last component with each key. */
  method PlanIndexes(cs: seq<PlanComponent>) returns (components: seq<Component>, indexes: map<PathKey, int>)
    ensures |components| == |cs| && HasKeys(components, cs) && Shown(components) == multiset{}
    ensures forall p :: p in indexes <==> IsKey(p, cs)
    ensures forall p :: p in indexes ==> IsLastKey(cs, indexes[p]) && cs[indexes[p]].key == p
    ensures IsPlanned(components, cs, [])
  {
    hide Shown, RowIdentities;
    components, indexes := [], map[];
    assert Shown([]) == multiset{} by {
      NothingShown();
    }
    for n := 0 to |cs|
      invariant |components| == n && Shown(components) == multiset{}
      invariant forall i :: 0 <= i < n ==> components[i] == Component(cs[i].key, cs[i].owner, cs[i].decision, 0, [])
      invariant forall p :: p in indexes ==> 0 <= indexes[p] < n && cs[indexes[p]].key == p
      invariant forall p, j :: p in indexes && indexes[p] < j < n ==> cs[j].key != p
      invariant forall i :: 0 <= i < n ==> cs[i].key in indexes
    {
      indexes := indexes[cs[n].key := |components|];
      ShownAppend(components, Component(cs[n].key, cs[n].owner, cs[n].decision, 0, []));
      NothingShown();
      components := components + [Component(cs[n].key, cs[n].owner, cs[n].decision, 0, [])];
    }
  }

  lemma NothingShown()
    ensures Shown([]) == multiset{} && RowIdentities([]) == multiset{}
  {
  }

  function CountAt(m: map<Identity, nat>, k: Identity): nat {
    if k in m then m[k] else 0
  }

  ghost predicate Counts(m: map<Identity, nat>, s: multiset<Identity>) {
    forall k :: CountAt(m, k) == s[k]
  }

  lemma CountsOneMore(m: map<Identity, nat>, s: multiset<Identity>, k: Identity)
    requires Counts(m, s)
    ensures Counts(m[k := CountAt(m, k) + 1], s + multiset{k})
  {
  }

  lemma LastKeyIsIndex(cs: seq<PlanComponent>, i: int)
    requires IsLastKey(cs, i)
    ensures 0 <= i < |cs|
  {
  }

  lemma PlanLinesMore(rows: seq<PlanRow>, row: PlanRow, cs: seq<PlanComponent>, c: int)
    ensures PlanLines(rows + [row], cs, c) ==
            PlanLines(rows, cs, c)
            + if IsLastKey(cs, c) && cs[c].key == row.owner then [Line(row.evidence, row.relation)] else []
  {
    assert (rows + [row])[..|rows|] == rows;
  }

  lemma PlanRowAdded(components: seq<Component>, cs: seq<PlanComponent>, rows: seq<PlanRow>, row: PlanRow, i: int)
    requires IsPlanned(components, cs, rows) && IsLastKey(cs, i) && cs[i].key == row.owner
    ensures IsPlanned(components[i := WithRow(components[i], row.evidence, row.relation)], cs, rows + [row])
  {
    hide WithRow, RowsFrom, PlanLines;
    RowsFromMore(components[i], PlanLines(rows, cs, i), row.evidence, row.relation);
    forall c | 0 <= c < |cs|
      ensures PlanLines(rows + [row], cs, c) ==
              if c == i then PlanLines(rows, cs, c) + [Line(row.evidence, row.relation)] else PlanLines(rows, cs, c)
    {
      PlanLinesMore(rows, row, cs, c);
      assert PlanLines(rows, cs, c) + [] == PlanLines(rows, cs, c);
    }
  }

  lemma PlanRowSkipped(components: seq<Component>, cs: seq<PlanComponent>, rows: seq<PlanRow>, row: PlanRow)
    requires IsPlanned(components, cs, rows) && !IsKey(row.owner, cs)
    ensures IsPlanned(components, cs, rows + [row])
  {
    hide WithRow, RowsFrom, PlanLines;
    forall c | 0 <= c < |cs| ensures PlanLines(rows + [row], cs, c) == PlanLines(rows, cs, c) {
      PlanLinesMore(rows, row, cs, c);
      assert PlanLines(rows, cs, c) + [] == PlanLines(rows, cs, c);
    }
  }

  /** What the components and the counts are after the first rows. */
  ghost predicate ArePlanned(components: seq<Component>, remaining: map<Identity, nat>, cs: seq<PlanComponent>,
                             rows: seq<PlanRow>) {
    && IsPlanned(components, cs, rows)
    && Shown(components) == OwnedIdentities(rows, cs) && Counts(remaining, PlanIdentities(rows))
  }

  lemma NothingPlanned(components: seq<Component>, cs: seq<PlanComponent>)
    requires IsPlanned(components, cs, []) && Shown(components) == multiset{}
    ensures ArePlanned(components, map[], cs, [])
  {
    hide IsPlanned, Shown;
    NoCounts();
  }

  lemma PlanSkips(components: seq<Component>, remaining: map<Identity, nat>, cs: seq<PlanComponent>,
                  rows: seq<PlanRow>, row: PlanRow)
    requires ArePlanned(components, remaining, cs, rows) && !IsKey(row.owner, cs)
    ensures var key := IdentityOf(row.evidence);
            ArePlanned(components, remaining[key := CountAt(remaining, key) + 1], cs, rows + [row])
  {
    hide IsPlanned, Shown, Counts, IsKey, IdentityOf, OwnedIdentities, PlanIdentities;
    PlanRowSkipped(components, cs, rows, row);
    CountsOneMore(remaining, PlanIdentities(rows), IdentityOf(row.evidence));
    OneMorePlanRow(rows, row, cs);
    assert OwnedIdentities(rows, cs) + multiset{} == OwnedIdentities(rows, cs);
  }

  lemma PlanAdds(components: seq<Component>, remaining: map<Identity, nat>, cs: seq<PlanComponent>,
                 rows: seq<PlanRow>, row: PlanRow, i: int)
    requires ArePlanned(components, remaining, cs, rows) && IsLastKey(cs, i) && cs[i].key == row.owner
    ensures 0 <= i < |components|
    ensures var key := IdentityOf(row.evidence);
            ArePlanned(components[i := WithRow(components[i], row.evidence, row.relation)],
                       remaining[key := CountAt(remaining, key) + 1], cs, rows + [row])
  {
    LastKeyIsIndex(cs, i);
    KeyIsThere(cs, i, row.owner);
    PlannedLength(components, cs, rows);
    hide IsPlanned, Shown, Counts, IsKey, IsLastKey, IdentityOf, WithRow, HasKeys, OwnedIdentities, PlanIdentities;
    PlanRowAdded(components, cs, rows, row, i);
    ShownWithRow(components, i, row.evidence, row.relation);
    CountsOneMore(remaining, PlanIdentities(rows), IdentityOf(row.evidence));
    OneMorePlanRow(rows, row, cs);
  }

  lemma KeyIsThere(cs: seq<PlanComponent>, i: int, key: PathKey)
    requires 0 <= i < |cs| && cs[i].key == key
    ensures IsKey(key, cs)
  {
  }

  lemma OneMorePlanRow(rows: seq<PlanRow>, row: PlanRow, cs: seq<PlanComponent>)
    ensures PlanIdentities(rows + [row]) == PlanIdentities(rows) + multiset{IdentityOf(row.evidence)}
    ensures OwnedIdentities(rows + [row], cs) ==
            OwnedIdentities(rows, cs) + if IsKey(row.owner, cs) then multiset{IdentityOf(row.evidence)} else multiset{}
  {
    hide IsKey, IdentityOf;
    assert (rows + [row])[..|rows|] == rows;
  }

  lemma PlannedLength(components: seq<Component>, cs: seq<PlanComponent>, rows: seq<PlanRow>)
    requires IsPlanned(components, cs, rows)
    ensures |components| == |cs| && HasKeys(components, cs)
  {
    hide RowsFrom, PlanLines;
  }

  method AddPlanRows(was: seq<Component>, indexes: map<PathKey, int>, rows: seq<PlanRow>, ghost cs: seq<PlanComponent>)
    returns (components: seq<Component>, remaining: map<Identity, nat>)
    requires IsPlanned(was, cs, []) && Shown(was) == multiset{}
    requires forall p :: p in indexes <==> IsKey(p, cs)
    requires forall p :: p in indexes ==> IsLastKey(cs, indexes[p]) && cs[indexes[p]].key == p
    ensures |components| == |cs| && HasKeys(components, cs) && IsPlanned(components, cs, rows)
    ensures Shown(components) == OwnedIdentities(rows, cs) && Counts(remaining, PlanIdentities(rows))
  {
    hide *;
    components := was;
    remaining := map[];
    NothingPlanned(was, cs);
    assert rows[..0] == [];
    for n := 0 to |rows|
      invariant ArePlanned(components, remaining, cs, rows[..n])
    {
      var row := rows[n];
      assert rows[..n + 1] == rows[..n] + [row];
      ghost var had := remaining;
      var key := IdentityOf(row.evidence);
      remaining := remaining[key := CountAt(remaining, key) + 1];
      if row.owner !in indexes {
        PlanSkips(components, had, cs, rows[..n], row);
        continue;
      }
      var i := indexes[row.owner];
      PlanAdds(components, had, cs, rows[..n], row, i);
      components := components[i := WithRow(components[i], row.evidence, row.relation)];
    }
    assert rows[..|rows|] == rows;
    PlannedAre(components, remaining, cs, rows);
  }

  lemma PlannedAre(components: seq<Component>, remaining: map<Identity, nat>, cs: seq<PlanComponent>,
                   rows: seq<PlanRow>)
    requires ArePlanned(components, remaining, cs, rows)
    ensures |components| == |cs| && HasKeys(components, cs) && IsPlanned(components, cs, rows)
    ensures Shown(components) == OwnedIdentities(rows, cs) && Counts(remaining, PlanIdentities(rows))
  {
    hide IsPlanned, Shown, Counts, HasKeys;
    PlannedLength(components, cs, rows);
  }

  lemma NoCounts()
    ensures Counts(map[], multiset{}) && PlanIdentities([]) == multiset{}
  {
  }

  lemma WithRowKeeps(c: Component, e: Evidence, relation: Relation)
    ensures var d := WithRow(c, e, relation); d.key == c.key && d.owner == c.owner && d.decision == c.decision
  {
  }

  // ----- audit rows

  function Excess(a: int, b: int): int {
    if a > b then a - b else 0
  }

  /** What is left to match of the plan's rows, and how many audit rows went beyond them, for every identity. */
  ghost predicate IsAudited(remaining: map<Identity, nat>, shown: multiset<Identity>,
                            plan: multiset<Identity>, owned: multiset<Identity>, audit: multiset<Identity>) {
    forall k :: CountAt(remaining, k) == Excess(plan[k], audit[k]) && shown[k] == owned[k] + Excess(audit[k], plan[k])
  }

  lemma AuditMatched(remaining: map<Identity, nat>, shown: multiset<Identity>, plan: multiset<Identity>,
                     owned: multiset<Identity>, audit: multiset<Identity>, k: Identity)
    requires IsAudited(remaining, shown, plan, owned, audit)
    ensures CountAt(remaining, k) > 0 ==>
              IsAudited(remaining[k := CountAt(remaining, k) - 1], shown, plan, owned, audit + multiset{k})
    ensures CountAt(remaining, k) == 0 ==>
              IsAudited(remaining, shown + multiset{k}, plan, owned, audit + multiset{k})
  {
  }

  /** The rows of one audit component go to component i, unless the plan already shows them. */
  lemma AuditLeft(remaining: map<Identity, nat>, shown: multiset<Identity>, plan: multiset<Identity>,
                  owned: multiset<Identity>, audit: multiset<Identity>, k: Identity)
    requires IsAudited(remaining, shown, plan, owned, audit)
    ensures CountAt(remaining, k) == 0 <==> audit[k] >= plan[k]
  {
  }

  lemma BeyondMore(rows: seq<AuditRow>, row: AuditRow, seen: multiset<Identity>, plan: multiset<Identity>, owner: Item)
    ensures var k := IdentityOf(row.evidence);
            BeyondLines(rows + [row], seen, plan, owner) ==
            BeyondLines(rows, seen, plan, owner)
            + if (seen + AuditIdentities(rows))[k] >= plan[k] then [Line(row.evidence, AuditRelation(row, owner))]
              else []
  {
    hide AuditIdentities, IdentityOf, AuditRelation;
    assert (rows + [row])[..|rows|] == rows;
  }

  lemma RowJoins(was: seq<Component>, components: seq<Component>, i: int, lines: seq<Line>, e: Evidence,
                 relation: Relation)
    requires 0 <= i < |was| && components == was[i := was[i].(rows := RowsFrom(lines))]
    ensures components[i := WithRow(components[i], e, relation)]
            == was[i := was[i].(rows := RowsFrom(lines + [Line(e, relation)]))]
  {
    hide WithRow, RowsFrom;
    RowsFromMore(components[i], lines, e, relation);
  }

  /** What the audit has counted so far, for all its rows. */
  datatype Tally = Tally(plan: multiset<Identity>, owned: multiset<Identity>, seen: multiset<Identity>)

  /** Component i has the first rows beyond the plan behind the lines it had, and the identities are counted. */
  ghost predicate AreAdded(components: seq<Component>, remaining: map<Identity, nat>, was: seq<Component>, i: int,
                           before: seq<Line>, rows: seq<AuditRow>, t: Tally)
    requires 0 <= i < |was|
  {
    && components == was[i := was[i].(rows := RowsFrom(before + BeyondLines(rows, t.seen, t.plan, was[i].owner)))]
    && IsAudited(remaining, Shown(components), t.plan, t.owned, t.seen + AuditIdentities(rows))
  }

  lemma NothingAdded(was: seq<Component>, counted: map<Identity, nat>, i: int, before: seq<Line>, t: Tally)
    requires 0 <= i < |was| && was[i].rows == RowsFrom(before)
    requires IsAudited(counted, Shown(was), t.plan, t.owned, t.seen)
    ensures AreAdded(was, counted, was, i, before, [], t)
  {
    hide IsAudited, Shown, RowsFrom;
    assert before + [] == before && t.seen + multiset{} == t.seen;
    assert was[i := was[i]] == was;
  }

  lemma RowAudited(t: Tally, rows: seq<AuditRow>, row: AuditRow)
    ensures t.seen + AuditIdentities(rows + [row]) ==
              t.seen + AuditIdentities(rows) + multiset{IdentityOf(row.evidence)}
  {
    hide IdentityOf;
    assert (rows + [row])[..|rows|] == rows;
  }

  lemma RowIsInPlan(components: seq<Component>, remaining: map<Identity, nat>, was: seq<Component>, i: int,
                    before: seq<Line>, rows: seq<AuditRow>, row: AuditRow, t: Tally)
    requires 0 <= i < |was| && AreAdded(components, remaining, was, i, before, rows, t)
    requires CountAt(remaining, IdentityOf(row.evidence)) > 0
    ensures var key := IdentityOf(row.evidence);
            AreAdded(components, remaining[key := CountAt(remaining, key) - 1], was, i, before, rows + [row], t)
  {
    hide IsAudited, Shown, RowsFrom, BeyondLines, AuditIdentities, IdentityOf, CountAt;
    var key, owner := IdentityOf(row.evidence), was[i].owner;
    AuditLeft(remaining, Shown(components), t.plan, t.owned, t.seen + AuditIdentities(rows), key);
    AuditMatched(remaining, Shown(components), t.plan, t.owned, t.seen + AuditIdentities(rows), key);
    BeyondMore(rows, row, t.seen, t.plan, owner);
    RowAudited(t, rows, row);
    var beyond := BeyondLines(rows, t.seen, t.plan, owner);
    assert beyond + [] == beyond;
  }

  lemma RowIsBeyond(components: seq<Component>, remaining: map<Identity, nat>, was: seq<Component>, i: int,
                    before: seq<Line>, rows: seq<AuditRow>, row: AuditRow, t: Tally)
    requires 0 <= i < |was| && AreAdded(components, remaining, was, i, before, rows, t)
    requires CountAt(remaining, IdentityOf(row.evidence)) == 0
    ensures 0 <= i < |components| && components[i].owner == was[i].owner
    ensures AreAdded(components[i := WithRow(components[i], row.evidence, AuditRelation(row, was[i].owner))], remaining,
                     was, i, before, rows + [row], t)
  {
    hide IsAudited, Shown, RowsFrom, BeyondLines, AuditIdentities, IdentityOf, CountAt, WithRow, AuditRelation;
    var key, owner := IdentityOf(row.evidence), was[i].owner;
    var relation := AuditRelation(row, owner);
    AuditLeft(remaining, Shown(components), t.plan, t.owned, t.seen + AuditIdentities(rows), key);
    AuditMatched(remaining, Shown(components), t.plan, t.owned, t.seen + AuditIdentities(rows), key);
    BeyondMore(rows, row, t.seen, t.plan, owner);
    RowAudited(t, rows, row);
    var beyond := BeyondLines(rows, t.seen, t.plan, owner);
    ShownWithRow(components, i, row.evidence, relation);
    RowJoins(was, components, i, before + beyond, row.evidence, relation);
    assert before + beyond + [Line(row.evidence, relation)] == before + (beyond + [Line(row.evidence, relation)]);
  }

  method AddAuditRows(was: seq<Component>, i: int, counted: map<Identity, nat>, rows: seq<AuditRow>,
                      ghost before: seq<Line>, ghost t: Tally)
    returns (components: seq<Component>, remaining: map<Identity, nat>)
    requires 0 <= i < |was| && was[i].rows == RowsFrom(before)
    requires IsAudited(counted, Shown(was), t.plan, t.owned, t.seen)
    ensures components ==
            was[i := was[i].(rows := RowsFrom(before + BeyondLines(rows, t.seen, t.plan, was[i].owner)))]
    ensures IsAudited(remaining, Shown(components), t.plan, t.owned, t.seen + AuditIdentities(rows))
  {
    hide AreAdded, IsAudited, Shown, RowsFrom, BeyondLines, AuditIdentities, IdentityOf, WithRow, AuditRelation;
    components, remaining := was, counted;
    NothingAdded(was, counted, i, before, t);
    assert rows[..0] == [];
    for n := 0 to |rows|
      invariant AreAdded(components, remaining, was, i, before, rows[..n], t)
    {
      var row := rows[n];
      assert rows[..n + 1] == rows[..n] + [row];
      var key := IdentityOf(row.evidence);
      if CountAt(remaining, key) > 0 {
        RowIsInPlan(components, remaining, was, i, before, rows[..n], row, t);
        remaining := remaining[key := CountAt(remaining, key) - 1];
        continue;
      }
      RowIsBeyond(components, remaining, was, i, before, rows[..n], row, t);
      var relation := AuditRelation(row, components[i].owner);
      components := components[i := WithRow(components[i], row.evidence, relation)];
    }
    assert rows[..|rows|] == rows;
    AddedAre(components, remaining, was, i, before, rows, t);
  }

  lemma AddedAre(components: seq<Component>, remaining: map<Identity, nat>, was: seq<Component>, i: int,
                 before: seq<Line>, rows: seq<AuditRow>, t: Tally)
    requires 0 <= i < |was| && AreAdded(components, remaining, was, i, before, rows, t)
    ensures components ==
            was[i := was[i].(rows := RowsFrom(before + BeyondLines(rows, t.seen, t.plan, was[i].owner)))]
    ensures IsAudited(remaining, Shown(components), t.plan, t.owned, t.seen + AuditIdentities(rows))
  {
    hide IsAudited, Shown, RowsFrom, BeyondLines, AuditIdentities;
  }

  lemma NoBeyond(seen: multiset<Identity>, plan: multiset<Identity>, owner: Item)
    ensures BeyondLines([], seen, plan, owner) == [] && RowsFrom([]) == []
  {
  }

  /** The lines planned component c has so far. */
  ghost function LinesOf(rows: seq<PlanRow>, audits: seq<AuditComponent>, cs: seq<PlanComponent>, c: int): seq<Line>
    requires 0 <= c < |cs|
  {
    PlanLines(rows, cs, c) + AuditLines(audits, cs, PlanIdentities(rows), c)
  }

  lemma PlacedAt(components: seq<Component>, cs: seq<PlanComponent>, rows: seq<PlanRow>, audits: seq<AuditComponent>,
                 c: int)
    requires IsPlaced(components, cs, rows, audits) && 0 <= c < |cs|
    ensures c < |components| && components[c].owner == cs[c].owner
    ensures components[c].rows == RowsFrom(LinesOf(rows, audits, cs, c))
  {
    hide PlanLines, AuditLines, RowsFrom, PlanIdentities;
    assert HasPlaced(components, cs, rows, audits, c);
  }

  lemma MatchIsSome(path: PathKey, cs: seq<PlanComponent>, i: int)
    requires IsBestMatch(path, cs, i)
    ensures HasMatch(Some(path), cs)
  {
  }

  lemma OneMoreAudit(audits: seq<AuditComponent>, audit: AuditComponent, cs: seq<PlanComponent>,
                     plan: multiset<Identity>, c: int)
    requires 0 <= c < |cs|
    ensures AuditLines(audits + [audit], cs, plan, c) ==
            AuditLines(audits, cs, plan, c)
            + if IsBestMatch(audit.path, cs, c)
              then BeyondLines(audit.rows, AllAuditIdentities(audits), plan, cs[c].owner) else []
  {
    hide IsBestMatch, BeyondLines, AllAuditIdentities;
    assert (audits + [audit])[..|audits|] == audits;
  }

  lemma OneMoreUnmatched(audits: seq<AuditComponent>, audit: AuditComponent, cs: seq<PlanComponent>)
    ensures Unmatched(audits + [audit], cs) ==
            Unmatched(audits, cs) + if HasMatch(Some(audit.path), cs) then 0 else 1
  {
    hide HasMatch;
    assert (audits + [audit])[..|audits|] == audits;
  }

  /** A component the audit does not match best keeps its place. */
  lemma StaysPlaced(was: seq<Component>, components: seq<Component>, cs: seq<PlanComponent>, rows: seq<PlanRow>,
                    audits: seq<AuditComponent>, audit: AuditComponent, c: int)
    requires 0 <= c < |cs| && HasPlaced(was, cs, rows, audits, c) && !IsBestMatch(audit.path, cs, c)
    requires c < |components| && components[c] == was[c]
    ensures HasPlaced(components, cs, rows, audits + [audit], c)
  {
    hide RowsFrom, PlanLines, AuditLines, PlanIdentities, IsBestMatch;
    OneMoreAudit(audits, audit, cs, PlanIdentities(rows), c);
    assert AuditLines(audits, cs, PlanIdentities(rows), c) + [] == AuditLines(audits, cs, PlanIdentities(rows), c);
  }

  /** The one it matches best gets its rows beyond the plan. */
  lemma JoinsPlaced(was: seq<Component>, components: seq<Component>, cs: seq<PlanComponent>, rows: seq<PlanRow>,
                    audits: seq<AuditComponent>, audit: AuditComponent, c: int)
    requires 0 <= c < |cs| && HasPlaced(was, cs, rows, audits, c) && IsBestMatch(audit.path, cs, c)
    requires var beyond := BeyondLines(audit.rows, AllAuditIdentities(audits), PlanIdentities(rows), cs[c].owner);
             c < |components| && components[c] == was[c].(rows := RowsFrom(LinesOf(rows, audits, cs, c) + beyond))
    ensures HasPlaced(components, cs, rows, audits + [audit], c)
  {
    hide RowsFrom, PlanLines, AuditLines, PlanIdentities, IsBestMatch, BeyondLines, AllAuditIdentities;
    OneMoreAudit(audits, audit, cs, PlanIdentities(rows), c);
    var beyond := BeyondLines(audit.rows, AllAuditIdentities(audits), PlanIdentities(rows), cs[c].owner);
    assert PlanLines(rows, cs, c) + (AuditLines(audits, cs, PlanIdentities(rows), c) + beyond) ==
           LinesOf(rows, audits, cs, c) + beyond;
  }

  /** The components of earlier unmatched audits stay. */
  lemma NewStays(was: seq<Component>, components: seq<Component>, cs: seq<PlanComponent>, rows: seq<PlanRow>,
                 audits: seq<AuditComponent>, audit: AuditComponent, n: int, c: int)
    requires HasNew(was, cs, rows, audits, n, c) && n < |audits|
    requires |was| <= |components| && (|cs| <= c < |was| ==> components[c] == was[c])
    ensures HasNew(components, cs, rows, audits + [audit], n, c)
  {
    hide RowsFrom, BeyondLines, PlanIdentities, HasMatch, AllAuditIdentities;
    if 0 <= n {
      assert (audits + [audit])[..n] == audits[..n] && (audits + [audit])[n] == audits[n];
    }
  }

  lemma PlacedMatched(components: seq<Component>, cs: seq<PlanComponent>, rows: seq<PlanRow>,
                      audits: seq<AuditComponent>, audit: AuditComponent, i: int)
    requires IsPlaced(components, cs, rows, audits) && IsBestMatch(audit.path, cs, i)
    ensures 0 <= i < |components| && 0 <= i < |cs|
    ensures var beyond := BeyondLines(audit.rows, AllAuditIdentities(audits), PlanIdentities(rows), cs[i].owner);
            IsPlaced(components[i := components[i].(rows := RowsFrom(LinesOf(rows, audits, cs, i) + beyond))],
                     cs, rows, audits + [audit])
  {
    MatchIsSome(audit.path, cs, i);
    BestMatchIsIndex(audit.path, cs, i);
    OneMoreUnmatched(audits, audit, cs);
    hide *;
    hide HasPlaced, HasNew, IsBestMatch;
    PlacedParts(components, cs, rows, audits);
    var beyond := BeyondLines(audit.rows, AllAuditIdentities(audits), PlanIdentities(rows), cs[i].owner);
    var now := components[i := components[i].(rows := RowsFrom(LinesOf(rows, audits, cs, i) + beyond))];
    forall c | 0 <= c < |cs| ensures HasPlaced(now, cs, rows, audits + [audit], c) {
      if c == i {
        JoinsPlaced(components, now, cs, rows, audits, audit, c);
      } else {
        OtherIsNotBest(audit.path, cs, i, c);
        StaysPlaced(components, now, cs, rows, audits, audit, c);
      }
    }
    forall n, c ensures HasNew(now, cs, rows, audits + [audit], n, c) {
      if n < |audits| {
        NewStays(components, now, cs, rows, audits, audit, n, c);
      } else {
        NoLaterNew(now, cs, rows, audits, audit, n, c);
      }
    }
    PlacedWhole(now, cs, rows, audits + [audit]);
  }

  lemma OtherIsNotBest(path: PathKey, cs: seq<PlanComponent>, i: int, c: int)
    requires IsBestMatch(path, cs, i) && c != i
    ensures !IsBestMatch(path, cs, c)
  {
    hide IsBestMatch;
    if IsBestMatch(path, cs, c) {
      BestMatchIsUnique(path, cs, c, i);
      assert false;
    }
  }

  lemma NoLaterNew(components: seq<Component>, cs: seq<PlanComponent>, rows: seq<PlanRow>,
                   audits: seq<AuditComponent>, audit: AuditComponent, n: int, c: int)
    requires HasMatch(Some(audit.path), cs) && n >= |audits|
    ensures HasNew(components, cs, rows, audits + [audit], n, c)
  {
    hide HasMatch;
  }

  lemma PlacedParts(components: seq<Component>, cs: seq<PlanComponent>, rows: seq<PlanRow>,
                    audits: seq<AuditComponent>)
    requires IsPlaced(components, cs, rows, audits)
    ensures |components| == |cs| + Unmatched(audits, cs)
    ensures forall c :: 0 <= c < |cs| ==> HasPlaced(components, cs, rows, audits, c)
    ensures forall n, c :: HasNew(components, cs, rows, audits, n, c)
  {
    hide HasPlaced, HasNew, Unmatched;
  }

  lemma PlacedWhole(components: seq<Component>, cs: seq<PlanComponent>, rows: seq<PlanRow>,
                    audits: seq<AuditComponent>)
    requires |components| == |cs| + Unmatched(audits, cs)
    requires forall c :: 0 <= c < |cs| ==> HasPlaced(components, cs, rows, audits, c)
    requires forall n, c :: HasNew(components, cs, rows, audits, n, c)
    ensures IsPlaced(components, cs, rows, audits)
  {
    hide HasPlaced, HasNew, Unmatched;
  }

  lemma PlacedUnmatched(components: seq<Component>, cs: seq<PlanComponent>, rows: seq<PlanRow>,
                        audits: seq<AuditComponent>, audit: AuditComponent)
    requires IsPlaced(components, cs, rows, audits) && !HasMatch(Some(audit.path), cs)
    ensures var beyond := BeyondLines(audit.rows, AllAuditIdentities(audits), PlanIdentities(rows), audit.owner);
            IsPlaced(components + [Component(audit.path, audit.owner, audit.decision, 0, RowsFrom(beyond))],
                     cs, rows, audits + [audit])
  {
    OneMoreUnmatched(audits, audit, cs);
    hide *;
    PlacedParts(components, cs, rows, audits);
    var beyond := BeyondLines(audit.rows, AllAuditIdentities(audits), PlanIdentities(rows), audit.owner);
    var now := components + [Component(audit.path, audit.owner, audit.decision, 0, RowsFrom(beyond))];
    forall c | 0 <= c < |cs| ensures HasPlaced(now, cs, rows, audits + [audit], c) {
      NoneIsBest(audit.path, cs, c);
      StaysPlaced(components, now, cs, rows, audits, audit, c);
    }
    forall n, c ensures HasNew(now, cs, rows, audits + [audit], n, c) {
      if n < |audits| {
        NewStays(components, now, cs, rows, audits, audit, n, c);
      } else {
        NewComes(components, cs, rows, audits, audit, n, c);
      }
    }
    PlacedWhole(now, cs, rows, audits + [audit]);
  }

  lemma NoneIsBest(path: PathKey, cs: seq<PlanComponent>, c: int)
    requires !HasMatch(Some(path), cs)
    ensures !IsBestMatch(path, cs, c)
  {
    hide IsBestMatch, HasMatch;
    if IsBestMatch(path, cs, c) {
      MatchIsSome(path, cs, c);
      assert false;
    }
  }

  lemma NewComes(components: seq<Component>, cs: seq<PlanComponent>, rows: seq<PlanRow>, audits: seq<AuditComponent>,
                 audit: AuditComponent, n: int, c: int)
    requires |components| == |cs| + Unmatched(audits, cs) && n >= |audits|
    ensures var beyond := BeyondLines(audit.rows, AllAuditIdentities(audits), PlanIdentities(rows), audit.owner);
            HasNew(components + [Component(audit.path, audit.owner, audit.decision, 0, RowsFrom(beyond))],
                   cs, rows, audits + [audit], n, c)
  {
    hide RowsFrom, BeyondLines, PlanIdentities, HasMatch, AllAuditIdentities, Unmatched;
    assert (audits + [audit])[..|audits|] == audits;
  }

  method AddAudit(was: seq<Component>, counted: map<Identity, nat>, audits: seq<AuditComponent>, cs: seq<PlanComponent>,
                  ghost rows: seq<PlanRow>, ghost owned: multiset<Identity>)
    returns (components: seq<Component>)
    requires HasKeys(was, cs) && IsAudited(counted, Shown(was), PlanIdentities(rows), owned, multiset{})
    requires IsPlanned(was, cs, rows)
    ensures IsPlaced(components, cs, rows, audits)
    ensures HasKeys(components, cs)
    ensures forall k :: Shown(components)[k] ==
              owned[k] + Excess(AllAuditIdentities(audits)[k], PlanIdentities(rows)[k])
  {
    hide Shown, AuditIdentities, RowIdentities, IsAudited, IsPlanned, IsPlaced, HasMatch, IsBestMatch, BeyondLines;
    hide RowsFrom, PlanIdentities, LinesOf, PlanLines, AuditLines;
    components := was;
    var remaining := counted;
    ghost var plan := PlanIdentities(rows);
    PlannedIsPlaced(was, cs, rows);
    assert audits[..0] == [];
    for n := 0 to |audits|
      invariant IsPlaced(components, cs, rows, audits[..n])
      invariant HasKeys(components, cs)
      invariant IsAudited(remaining, Shown(components), plan, owned, AllAuditIdentities(audits[..n]))
    {
      var audit := audits[n];
      assert audits[..n + 1][..n] == audits[..n] && audits[..n + 1] == audits[..n] + [audit];
      var index, matched := ComponentForPath(Some(audit.path), cs);
      ghost var before := [];
      ghost var had := components;
      NoRows();
      if matched {
        BestMatchIsIndex(audit.path, cs, index);
        PlacedAt(components, cs, rows, audits[..n], index);
        PlacedMatched(components, cs, rows, audits[..n], audit, index);
        before := LinesOf(rows, audits[..n], cs, index);
      } else {
        PlacedUnmatched(components, cs, rows, audits[..n], audit);
        index := |components|;
        ShownAppend(components, Component(audit.path, audit.owner, audit.decision, 0, []));
        NoIdentities();
        assert Shown(components) + multiset{} == Shown(components);
        components := components + [Component(audit.path, audit.owner, audit.decision, 0, [])];
      }
      components, remaining := AddAuditRows(components, index, remaining, audit.rows, before,
                                            Tally(plan, owned, AllAuditIdentities(audits[..n])));
      ghost var beyond := BeyondLines(audit.rows, AllAuditIdentities(audits[..n]), plan, audit.owner);
      ghost var added := Component(audit.path, audit.owner, audit.decision, 0, RowsFrom(beyond));
      assert [] + beyond == beyond;
      assert !matched ==> components == had + [added];
    }
    assert audits[..|audits|] == audits;
    AuditedMeans(remaining, Shown(components), plan, owned, AllAuditIdentities(audits));
  }

  lemma NoRows()
    ensures RowsFrom([]) == []
  {
  }

  lemma BestMatchIsIndex(path: PathKey, cs: seq<PlanComponent>, i: int)
    requires IsBestMatch(path, cs, i)
    ensures 0 <= i < |cs|
  {
  }

  lemma PlannedIsPlaced(components: seq<Component>, cs: seq<PlanComponent>, rows: seq<PlanRow>)
    requires IsPlanned(components, cs, rows)
    ensures IsPlaced(components, cs, rows, [])
  {
    hide RowsFrom, PlanLines, PlanIdentities;
    assert forall c :: 0 <= c < |cs| ==> PlanLines(rows, cs, c) + AuditLines([], cs, PlanIdentities(rows), c) ==
                                         PlanLines(rows, cs, c);
  }

  lemma NoIdentities()
    ensures RowIdentities([]) == multiset{}
  {
  }

  lemma AuditedMeans(remaining: map<Identity, nat>, shown: multiset<Identity>, plan: multiset<Identity>,
                     owned: multiset<Identity>, audit: multiset<Identity>)
    requires IsAudited(remaining, shown, plan, owned, audit)
    ensures forall k :: shown[k] == owned[k] + Excess(audit[k], plan[k])
  {
  }

  // ----- inventory

  /** How much shown evidence still stands for inventory items, and what was added beyond it. */
  ghost predicate IsInventoried(standing: map<Identity, nat>, shown: multiset<Identity>, base: multiset<Identity>,
                                inventory: multiset<Identity>, cs: seq<PlanComponent>) {
    forall k :: CountAt(standing, k) == Excess(base[k], inventory[k])
                && shown[k] == base[k] + if HasMatch(k.1, cs) then Excess(inventory[k], base[k]) else 0
  }

  lemma InventoryMatched(standing: map<Identity, nat>, shown: multiset<Identity>, base: multiset<Identity>,
                         inventory: multiset<Identity>, cs: seq<PlanComponent>, k: Identity)
    requires IsInventoried(standing, shown, base, inventory, cs)
    ensures CountAt(standing, k) > 0 ==>
              IsInventoried(standing[k := CountAt(standing, k) - 1], shown, base, inventory + multiset{k}, cs)
    ensures CountAt(standing, k) == 0 ==>
              IsInventoried(standing, if HasMatch(k.1, cs) then shown + multiset{k} else shown, base,
                            inventory + multiset{k}, cs)
  {
    hide HasMatch;
  }

  method CountShown(components: seq<Component>) returns (standing: map<Identity, nat>)
    ensures Counts(standing, Shown(components))
  {
    hide Counts, RowIdentities, Shown;
    standing := map[];
    NoCounts();
    ShownOfNone();
    for n := 0 to |components|
      invariant Counts(standing, Shown(components[..n]))
    {
      assert components[..n + 1] == components[..n] + [components[n]];
      ShownAppend(components[..n], components[n]);
      standing := CountRows(components[n].rows, standing, Shown(components[..n]));
    }
    assert components[..|components|] == components;
  }

  lemma ShownOfNone()
    ensures Shown([]) == multiset{}
  {
  }

  method CountRows(rows: seq<Row>, was: map<Identity, nat>, ghost s: multiset<Identity>) returns (m: map<Identity, nat>)
    requires Counts(was, s)
    ensures Counts(m, s + RowIdentities(rows))
  {
    hide Counts, IdentityOf;
    m := was;
    assert s + RowIdentities(rows[..0]) == s;
    for n := 0 to |rows|
      invariant Counts(m, s + RowIdentities(rows[..n]))
    {
      assert rows[..n + 1][..n] == rows[..n];
      var key := IdentityOf(rows[n].evidence);
      CountsOneMore(m, s + RowIdentities(rows[..n]), key);
      assert s + RowIdentities(rows[..n + 1]) == s + RowIdentities(rows[..n]) + multiset{key};
      m := m[key := CountAt(m, key) + 1];
    }
    assert rows[..|rows|] == rows;
  }

  lemma InventoryLeft(standing: map<Identity, nat>, shown: multiset<Identity>, base: multiset<Identity>,
                      inventory: seq<Evidence>, cs: seq<PlanComponent>, item: Evidence)
    requires IsInventoried(standing, shown, base, InventoryIdentities(inventory), cs)
    ensures CountAt(standing, IdentityOf(item)) == 0 <==> IsLeftover(inventory, item, base)
  {
    hide HasMatch, InventoryIdentities;
  }

  lemma InventorySkipped(components: seq<Component>, was: seq<Component>, cs: seq<PlanComponent>,
                         inventory: seq<Evidence>, item: Evidence, base: multiset<Identity>)
    requires HasInventory(components, was, cs, inventory, base)
    requires !IsLeftover(inventory, item, base) || !HasMatch(item.item.path, cs)
    ensures HasInventory(components, was, cs, inventory + [item], base)
  {
    hide RowsFrom, InventoryRelation, IsLeftover;
    assert (inventory + [item])[..|inventory|] == inventory;
    forall c, before | 0 <= c < |cs|
      ensures InventoryLines(before, inventory + [item], cs, base, c) == InventoryLines(before, inventory, cs, base, c)
    {
      if IsLeftover(inventory, item, base) && item.item.path.Some? && IsBestMatch(item.item.path.value, cs, c) {
        MatchIsSome(item.item.path.value, cs, c);
        assert false;
      }
    }
  }

  lemma InventoryAdded(components: seq<Component>, was: seq<Component>, cs: seq<PlanComponent>,
                       inventory: seq<Evidence>, item: Evidence, base: multiset<Identity>, i: int)
    requires HasInventory(components, was, cs, inventory, base) && HasKeys(was, cs) && HasKeys(components, cs)
    requires IsLeftover(inventory, item, base) && item.item.path.Some? && IsBestMatch(item.item.path.value, cs, i)
    ensures 0 <= i < |components|
    ensures HasInventory(components[i := WithRow(components[i], item, InventoryRelation(item.item, components[i]))],
                         was, cs, inventory + [item], base)
  {
    BestMatchIsIndex(item.item.path.value, cs, i);
    hide RowsFrom, IsLeftover, InventoryRelation, WithRow;
    assert (inventory + [item])[..|inventory|] == inventory;
    var path := item.item.path.value;
    forall c, before | 0 <= c < |cs| && c != i
      ensures InventoryLines(before, inventory + [item], cs, base, c) == InventoryLines(before, inventory, cs, base, c)
    {
      if IsBestMatch(path, cs, c) {
        BestMatchIsUnique(path, cs, c, i);
        assert false;
      }
    }
    forall before | was[i].rows == RowsFrom(before)
      ensures WithRow(components[i], item, InventoryRelation(item.item, components[i])) ==
              was[i].(rows := RowsFrom(InventoryLines(before, inventory + [item], cs, base, i)))
    {
      var lines := InventoryLines(before, inventory, cs, base, i);
      var c := Component(cs[i].key, cs[i].owner, cs[i].decision, 0, RowsFrom(lines));
      SameInventoryRelation(item.item, components[i], c);
      RowsFromMore(components[i], lines, item, InventoryRelation(item.item, c));
    }
    hide IsBestMatch, InventoryLines;
  }

  lemma SameInventoryRelation(item: Item, a: Component, b: Component)
    requires a.owner == b.owner && a.rows == b.rows
    ensures InventoryRelation(item, a) == InventoryRelation(item, b)
  {
  }

  method AddInventory(was: seq<Component>, inventory: seq<Evidence>, cs: seq<PlanComponent>)
    returns (components: seq<Component>)
    requires HasKeys(was, cs)
    ensures HasKeys(components, cs)
    ensures HasInventory(components, was, cs, inventory, Shown(was))
    ensures forall k :: Shown(components)[k] ==
                        Shown(was)[k] + if HasMatch(k.1, cs)
                          then Excess(InventoryIdentities(inventory)[k], Shown(was)[k]) else 0
  {
    hide Shown, WithRow, HasMatch, IsBestMatch, IsInventoried, Counts, InventoryRelation, HasInventory, IsLeftover;
    components := was;
    var standing: map<Identity, nat> := CountShown(was);
    ghost var base := Shown(was);
    NothingInventoried(standing, base, cs);
    NoInventory(was, cs, base);
    assert inventory[..0] == [];
    for n := 0 to |inventory|
      invariant HasKeys(components, cs) && HasInventory(components, was, cs, inventory[..n], base)
      invariant IsInventoried(standing, Shown(components), base, InventoryIdentities(inventory[..n]), cs)
    {
      var item := inventory[n];
      var key := IdentityOf(item);
      assert inventory[..n + 1][..n] == inventory[..n] && inventory[..n + 1] == inventory[..n] + [item];
      InventoryLeft(standing, Shown(components), base, inventory[..n], cs, item);
      InventoryMatched(standing, Shown(components), base, InventoryIdentities(inventory[..n]), cs, key);
      if CountAt(standing, key) >= 1 {
        standing := standing[key := CountAt(standing, key) - 1];
        InventorySkipped(components, was, cs, inventory[..n], item, base);
        continue;
      }
      var index, matched := ComponentForPath(item.item.path, cs);
      if !matched {
        InventorySkipped(components, was, cs, inventory[..n], item, base);
        continue;
      }
      MatchHasPath(item.item.path, cs);
      InventoryAdded(components, was, cs, inventory[..n], item, base, index);
      var relation := InventoryRelation(item.item, components[index]);
      ShownWithRow(components, index, item, relation);
      WithRowKeeps(components[index], item, relation);
      components := components[index := WithRow(components[index], item, relation)];
    }
    assert inventory[..|inventory|] == inventory;
    InventoriedMeans(standing, Shown(components), base, InventoryIdentities(inventory), cs);
  }

  lemma MatchHasPath(path: Option<PathKey>, cs: seq<PlanComponent>)
    requires HasMatch(path, cs)
    ensures path.Some?
  {
  }

  lemma NoInventory(was: seq<Component>, cs: seq<PlanComponent>, base: multiset<Identity>)
    ensures HasInventory(was, was, cs, [], base)
  {
    hide RowsFrom;
  }

  lemma NothingInventoried(standing: map<Identity, nat>, base: multiset<Identity>, cs: seq<PlanComponent>)
    requires Counts(standing, base)
    ensures IsInventoried(standing, base, base, InventoryIdentities([]), cs)
  {
    hide HasMatch;
  }

  lemma InventoriedMeans(standing: map<Identity, nat>, shown: multiset<Identity>, base: multiset<Identity>,
                         inventory: multiset<Identity>, cs: seq<PlanComponent>)
    requires IsInventoried(standing, shown, base, inventory, cs)
    ensures forall k :: shown[k] == base[k] + if HasMatch(k.1, cs) then Excess(inventory[k], base[k]) else 0
  {
    hide HasMatch;
  }

  // ----- ordering and owner rows

  predicate RowLess(a: Row, b: Row) {
    LexLess(a.sortKey, b.sortKey)
  }

  predicate ComponentLess(a: Component, b: Component) {
    LexLess(Spelling(a.key) + "\0" + StableKey(a.owner), Spelling(b.key) + "\0" + StableKey(b.owner))
  }

  lemma {:induction false} InsertKeepsIdentities(sorted: seq<Row>, row: Row)
    ensures RowIdentities(Insert(sorted, row, RowLess)) == RowIdentities(sorted) + multiset{IdentityOf(row.evidence)}
  {
    hide RowLess, IdentityOf;
    var after := Insert(sorted, row, RowLess);
    if sorted == [] || RowLess(row, sorted[0]) {
      RowsFromFront([row] + sorted);
    } else {
      InsertKeepsIdentities(sorted[1..], row);
      RowsFromFront(after);
      RowsFromFront(sorted);
    }
  }

  lemma {:induction false} RowsFromFront(rows: seq<Row>)
    requires rows != []
    ensures RowIdentities(rows) == multiset{IdentityOf(rows[0].evidence)} + RowIdentities(rows[1..])
  {
    hide IdentityOf;
    if |rows| > 1 {
      var front, tail := rows[..|rows| - 1], rows[1..];
      RowsFromFront(front);
      assert front[0] == rows[0] && front[1..] == tail[..|tail| - 1] && tail[|tail| - 1] == rows[|rows| - 1];
      var first, last := multiset{IdentityOf(rows[0].evidence)}, multiset{IdentityOf(rows[|rows| - 1].evidence)};
      assert RowIdentities(front) == first + RowIdentities(front[1..]);
      assert RowIdentities(tail) == RowIdentities(front[1..]) + last;
    }
  }

  lemma {:induction false} SortKeepsIdentities(rows: seq<Row>)
    ensures RowIdentities(SortBy(rows, RowLess)) == RowIdentities(rows)
  {
    hide RowLess, IdentityOf;
    if rows != [] {
      SortKeepsIdentities(rows[..|rows| - 1]);
      InsertKeepsIdentities(SortBy(rows[..|rows| - 1], RowLess), rows[|rows| - 1]);
    }
  }

  lemma {:induction false} InsertKeepsShown(sorted: seq<Component>, c: Component)
    ensures Shown(Insert(sorted, c, ComponentLess)) == Shown(sorted) + RowIdentities(c.rows)
  {
    hide ComponentLess, RowIdentities;
    var after := Insert(sorted, c, ComponentLess);
    if sorted == [] || ComponentLess(c, sorted[0]) {
      ShownFromFront([c] + sorted);
    } else {
      InsertKeepsShown(sorted[1..], c);
      ShownFromFront(after);
      ShownFromFront(sorted);
    }
  }

  lemma {:induction false} ShownFromFront(cs: seq<Component>)
    requires cs != []
    ensures Shown(cs) == RowIdentities(cs[0].rows) + Shown(cs[1..])
  {
    hide RowIdentities;
    if |cs| > 1 {
      ShownFromFront(cs[..|cs| - 1]);
      assert cs[..|cs| - 1][1..] == cs[1..][..|cs| - 2];
    }
  }

  lemma {:induction false} SortKeepsShown(cs: seq<Component>)
    ensures Shown(SortBy(cs, ComponentLess)) == Shown(cs)
  {
    hide ComponentLess, RowIdentities;
    if cs != [] {
      SortKeepsShown(cs[..|cs| - 1]);
      InsertKeepsShown(SortBy(cs[..|cs| - 1], ComponentLess), cs[|cs| - 1]);
    }
  }

  ghost predicate HasOwnerRow(c: Component) {
    |c.rows| > 0 ==> exists i :: 0 <= i < |c.rows| && c.rows[i].relation == Owner
  }

  /** The rows stand by their sort keys. */
  ghost predicate IsInOrder(c: Component) {
    Ordered(c.rows, RowLess)
  }

  /** The rows, the first one an owner row when none is. */
  ghost function OwnerFirst(rows: seq<Row>): seq<Row> {
    if rows == [] || exists i :: 0 <= i < |rows| && rows[i].relation == Owner then rows
    else rows[0 := rows[0].(relation := Owner)]
  }

  /** The component with its rows by their sort keys, the first one an owner row when none is. */
  ghost predicate IsFinished(now: Component, was: Component) {
    && now.(rows := was.rows) == was
    && exists sorted ::
      Ordered(sorted, RowLess) && multiset(sorted) == multiset(was.rows) && now.rows == OwnerFirst(sorted)
  }

  ghost predicate AreFinished(now: seq<Component>, was: seq<Component>) {
    |now| == |was| && forall i :: 0 <= i < |was| ==> IsFinished(now[i], was[i])
  }

  /** A component with rows always shows an owner row: the first takes the part when none had it. */
  method EnsureOwnerRow(c: Component) returns (rows: seq<Row>)
    ensures RowIdentities(rows) == RowIdentities(c.rows) && HasOwnerRow(c.(rows := rows))
    ensures |rows| == |c.rows| && forall i :: 0 <= i < |rows| ==> rows[i].sortKey == c.rows[i].sortKey
    ensures rows == OwnerFirst(c.rows)
  {
    rows := c.rows;
    for i := 0 to |rows|
      invariant forall j :: 0 <= j < i ==> rows[j].relation != Owner
    {
      if rows[i].relation == Owner {
        return;
      }
    }
    if |rows| == 0 {
      return;
    }
    rows := rows[0 := rows[0].(relation := Owner)];
    SameEvidence(rows, c.rows);
  }

  lemma {:induction false} SameEvidence(a: seq<Row>, b: seq<Row>)
    requires |a| == |b| && forall i :: 0 <= i < |a| ==> a[i].evidence == b[i].evidence
    ensures RowIdentities(a) == RowIdentities(b)
  {
    hide IdentityOf;
    if a != [] {
      SameEvidence(a[..|a| - 1], b[..|b| - 1]);
    }
  }

  lemma {:induction false} SameRowsShown(a: seq<Component>, b: seq<Component>)
    requires |a| == |b| && forall i :: 0 <= i < |a| ==> RowIdentities(a[i].rows) == RowIdentities(b[i].rows)
    ensures Shown(a) == Shown(b)
  {
    hide RowIdentities;
    if a != [] {
      SameRowsShown(a[..|a| - 1], b[..|b| - 1]);
    }
  }

  lemma OrderOfRows(rows: seq<Row>)
    ensures Ordered(SortBy(rows, RowLess), RowLess)
  {
    LexIsWeakOrder();
    hide LexLess;
    assert WeakOrder(RowLess);
    SortSorts(rows, RowLess);
  }

  lemma SameOrder(a: seq<Row>, b: seq<Row>)
    requires Ordered(a, RowLess) && |a| == |b| && forall i :: 0 <= i < |a| ==> a[i].sortKey == b[i].sortKey
    ensures Ordered(b, RowLess)
  {
    hide LexLess;
    forall i, j | 0 <= i < j < |b| ensures !RowLess(b[j], b[i]) {
      assert !RowLess(a[j], a[i]);
    }
  }

  lemma ComponentLessIsWeakOrder()
    ensures WeakOrder(ComponentLess)
  {
    LexIsWeakOrder();
    hide LexLess, Spelling, StableKey;
  }

  lemma OrderOfComponents(cs: seq<Component>)
    ensures Ordered(SortBy(cs, ComponentLess), ComponentLess)
  {
    ComponentLessIsWeakOrder();
    hide ComponentLess, SortBy;
    SortSorts(cs, ComponentLess);
  }

  lemma FinishedMeans(was: Component, sorted: seq<Row>, rows: seq<Row>)
    requires Ordered(sorted, RowLess) && multiset(sorted) == multiset(was.rows) && rows == OwnerFirst(sorted)
    ensures IsFinished(was.(rows := rows), was)
  {
    hide OwnerFirst;
  }

  method FinishRows(was: seq<Component>) returns (components: seq<Component>)
    ensures Shown(components) == Shown(was) && AreFinished(components, was)
    ensures forall i :: 0 <= i < |components| ==> HasOwnerRow(components[i]) && IsInOrder(components[i])
  {
    hide Shown, RowIdentities, HasOwnerRow, SortBy, Ordered, RowLess, OwnerFirst, IsFinished;
    components := [];
    for i := 0 to |was|
      invariant |components| == i && forall j :: 0 <= j < i ==>
                                       HasOwnerRow(components[j]) && IsInOrder(components[j])
                                       && IsFinished(components[j], was[j])
                                       && RowIdentities(components[j].rows) == RowIdentities(was[j].rows)
    {
      var c := was[i];
      SortKeepsIdentities(c.rows);
      c := c.(rows := SortBy(c.rows, RowLess));
      var rows := EnsureOwnerRow(c);
      OrderOfRows(was[i].rows);
      SameOrder(c.rows, rows);
      SortKeeps(was[i].rows, RowLess);
      FinishedMeans(was[i], c.rows, rows);
      components := components + [c.(rows := rows)];
    }
    SameRowsShown(components, was);
  }

  // ----- the whole snapshot

  /** For every identity: the plan's rows, then the audit's beyond the plan's, then, where a planned component is at,
      above or below the path, the inventory's beyond both. */
  ghost predicate ShowsEvidence(shown: multiset<Identity>, cs: seq<PlanComponent>, rows: seq<PlanRow>,
                                audits: seq<AuditComponent>, inventory: seq<Evidence>) {
    forall k :: shown[k] == WithInventory(k, WithAudit(k, cs, rows, audits), cs, inventory)
  }

  ghost function WithAudit(k: Identity, cs: seq<PlanComponent>, rows: seq<PlanRow>, audits: seq<AuditComponent>): int {
    OwnedIdentities(rows, cs)[k] + Excess(AllAuditIdentities(audits)[k], PlanIdentities(rows)[k])
  }

  ghost function WithInventory(k: Identity, base: int, cs: seq<PlanComponent>, inventory: seq<Evidence>): int {
    base + if HasMatch(k.1, cs) then Excess(InventoryIdentities(inventory)[k], base) else 0
  }

  /** The components after the audits, after the inventory, with their rows finished, and put in order. */
  datatype Stages = Stages(audited: seq<Component>, merged: seq<Component>, finished: seq<Component>,
                           ordered: seq<Component>)

  /** Plan, audit and inventory rows are each on their component, whose rows are then sorted and get an owner row; the
      components are put in some order and get their bytes. */
  ghost predicate IsMerged(components: seq<Component>, cs: seq<PlanComponent>, rows: seq<PlanRow>,
                           audits: seq<AuditComponent>, inventory: seq<Evidence>) {
    exists s :: AreStages(s, components, cs, rows, audits, inventory)
  }

  ghost predicate AreStages(s: Stages, components: seq<Component>, cs: seq<PlanComponent>, rows: seq<PlanRow>,
                            audits: seq<AuditComponent>, inventory: seq<Evidence>) {
    && IsPlaced(s.audited, cs, rows, audits)
    && ShowsAudited(s.audited, cs, rows, audits)
    && HasInventory(s.merged, s.audited, cs, inventory, Shown(s.audited))
    && AreFinished(s.finished, s.merged)
    && IsPermutation(s.ordered, s.finished)
    && SameButBytes(components, s.ordered)
  }

  /** Each identity is shown as often as the owned plan rows and the audit rows beyond the plan have it. */
  ghost predicate ShowsAudited(audited: seq<Component>, cs: seq<PlanComponent>, rows: seq<PlanRow>,
                               audits: seq<AuditComponent>) {
    forall k :: Shown(audited)[k] == WithAudit(k, cs, rows, audits)
  }

  ghost predicate IsPermutation(a: seq<Component>, b: seq<Component>) {
    multiset(a) == multiset(b)
  }

  method SnapshotComponents(cs: seq<PlanComponent>, rows: seq<PlanRow>, audits: seq<AuditComponent>,
                            inventory: seq<Evidence>)
    returns (components: seq<Component>, t: Tree)
    ensures IsMerged(components, cs, rows, audits, inventory)
    ensures ShowsEvidence(Shown(components), cs, rows, audits, inventory)
    ensures forall i :: 0 <= i < |components| ==> HasOwnerRow(components[i]) && IsInOrder(components[i])
    ensures Ordered(components, ComponentLess)
    ensures IsTreeOf(t, components) && IsTree(t) && IsWholeAssignment(t, BytesOf(components))
    ensures SnapshotForest.Sum(BytesOf(components)) == RootBytes(t, |components|)
  {
    hide *;
    var indexes;
    components, indexes := PlanIndexes(cs);
    var remaining;
    components, remaining := AddPlanRows(components, indexes, rows, cs);
    NothingAudited(remaining, Shown(components), PlanIdentities(rows));
    components := AddAudit(components, remaining, audits, cs, rows, OwnedIdentities(rows, cs));
    ghost var audited := components;
    components := AddInventory(components, inventory, cs);
    ghost var merged := components;
    EvidenceIs(Shown(audited), Shown(components), cs, rows, audits, inventory);
    components := FinishRows(components);
    SortKeepsShown(components);
    ghost var finished := components;
    components := SortBy(components, ComponentLess);
    OrderOfComponents(finished);
    SortPermutes(finished);
    OwnerRowsStay(finished, components);
    var cells := new Component[|components|](i requires 0 <= i < |components| => components[i]);
    ghost var ordered := components;
    assert cells[..] == ordered;
    t := AssignAccountingBytes(cells);
    components := cells[..];
    AuditedShows(audited, cs, rows, audits);
    MergedBy(Stages(audited, merged, finished, ordered), components, cs, rows, audits, inventory);
    BytesOnly(ordered, components);
    TreeOfMeans(t, components);
    WholeAssignment(t, components);
  }

  lemma SortPermutes(cs: seq<Component>)
    ensures IsPermutation(SortBy(cs, ComponentLess), cs)
  {
    SortKeeps(cs, ComponentLess);
  }

  lemma AuditedShows(audited: seq<Component>, cs: seq<PlanComponent>, rows: seq<PlanRow>, audits: seq<AuditComponent>)
    requires forall k :: Shown(audited)[k] == OwnedIdentities(rows, cs)[k]
                         + Excess(AllAuditIdentities(audits)[k], PlanIdentities(rows)[k])
    ensures ShowsAudited(audited, cs, rows, audits)
  {
    hide Shown, OwnedIdentities, AllAuditIdentities, PlanIdentities;
  }

  lemma MergedBy(s: Stages, components: seq<Component>, cs: seq<PlanComponent>, rows: seq<PlanRow>,
                 audits: seq<AuditComponent>, inventory: seq<Evidence>)
    requires IsPlaced(s.audited, cs, rows, audits) && ShowsAudited(s.audited, cs, rows, audits)
    requires HasInventory(s.merged, s.audited, cs, inventory, Shown(s.audited)) && AreFinished(s.finished, s.merged)
    requires IsPermutation(s.ordered, s.finished) && SameButBytes(components, s.ordered)
    ensures IsMerged(components, cs, rows, audits, inventory)
  {
    hide IsPlaced, ShowsAudited, HasInventory, Shown, AreFinished, IsPermutation, SameButBytes;
    assert AreStages(s, components, cs, rows, audits, inventory);
  }

  lemma NothingAudited(remaining: map<Identity, nat>, owned: multiset<Identity>, plan: multiset<Identity>)
    requires Counts(remaining, plan)
    ensures IsAudited(remaining, owned, plan, owned, multiset{})
  {
  }

  lemma EvidenceIs(audited: multiset<Identity>, shown: multiset<Identity>, cs: seq<PlanComponent>, rows: seq<PlanRow>,
                   audits: seq<AuditComponent>, inventory: seq<Evidence>)
    requires forall k :: audited[k] == OwnedIdentities(rows, cs)[k]
                         + Excess(AllAuditIdentities(audits)[k], PlanIdentities(rows)[k])
    requires forall k :: shown[k] ==
                         audited[k] + if HasMatch(k.1, cs) then Excess(InventoryIdentities(inventory)[k], audited[k])
                           else 0
    ensures ShowsEvidence(shown, cs, rows, audits, inventory)
  {
    hide HasMatch, OwnedIdentities, AllAuditIdentities, PlanIdentities, InventoryIdentities;
  }

  lemma OwnerRowsStay(was: seq<Component>, now: seq<Component>)
    requires now == SortBy(was, ComponentLess)
    requires forall i :: 0 <= i < |was| ==> HasOwnerRow(was[i]) && IsInOrder(was[i])
    ensures forall i :: 0 <= i < |now| ==> HasOwnerRow(now[i]) && IsInOrder(now[i])
  {
    hide HasOwnerRow, IsInOrder, SortBy, ComponentLess;
    SortKeepsMembers(was, ComponentLess);
    forall i | 0 <= i < |now| ensures HasOwnerRow(now[i]) && IsInOrder(now[i]) {
      assert now[i] in was;
    }
  }

  lemma BytesOnly(was: seq<Component>, now: seq<Component>)
    requires SameButBytes(now, was) && Ordered(was, ComponentLess)
    requires forall i :: 0 <= i < |was| ==> HasOwnerRow(was[i]) && IsInOrder(was[i])
    ensures Shown(now) == Shown(was) && Ordered(now, ComponentLess)
    ensures forall i :: 0 <= i < |now| ==> HasOwnerRow(now[i]) && IsInOrder(now[i])
  {
    hide Shown, RowIdentities, RowLess, LexLess;
    forall i | 0 <= i < |now|
      ensures now[i].rows == was[i].rows && now[i].key == was[i].key && now[i].owner == was[i].owner
    {
    }
    SameRowsShown(now, was);
    forall i | 0 <= i < |now| ensures HasOwnerRow(now[i]) && IsInOrder(now[i]) {
      assert HasOwnerRow(was[i]) && IsInOrder(was[i]);
    }
    forall i, j | 0 <= i < j < |now| ensures !ComponentLess(now[j], now[i]) {
      assert !ComponentLess(was[j], was[i]);
    }
  }

  lemma WholeAssignment(t: Tree, components: seq<Component>)
    requires IsTreeOf(t, components) && (forall i :: 0 <= i < |components| ==> IsSettled(t, BytesOf(components), i))
    requires |t.sizes| == |components| && IsAssigned(t, BytesOf(components), |components|)
    ensures IsTree(t) && IsWholeAssignment(t, BytesOf(components))
  {
    hide IsSettled, AreSettled, FirstTrees, Subtree, RootBytes, SnapshotForest.SumAt;
  }

  /** When every plan row's owner is a component, each identity is shown as often as plan or audit has it, whichever
      has it more often; and where a planned component touches the path, as the inventory has it if that is more. */
  lemma NoEvidenceIsLostOrCountedTwice(shown: multiset<Identity>, cs: seq<PlanComponent>, rows: seq<PlanRow>,
                                       audits: seq<AuditComponent>, inventory: seq<Evidence>, k: Identity)
    requires ShowsEvidence(shown, cs, rows, audits, inventory)
    requires forall i :: 0 <= i < |rows| ==> IsKey(rows[i].owner, cs)
    ensures var (p, a, n) := (PlanIdentities(rows)[k], AllAuditIdentities(audits)[k],
                              InventoryIdentities(inventory)[k]);
            shown[k] == if HasMatch(k.1, cs) then Greatest(Greatest(p, a), n) else Greatest(p, a)
  {
    hide HasMatch, PlanIdentities, OwnedIdentities, AllAuditIdentities, InventoryIdentities;
    AllRowsOwned(rows, cs);
  }

  function Greatest(a: int, b: int): int {
    if a > b then a else b
  }

  lemma {:induction false} AllRowsOwned(rows: seq<PlanRow>, cs: seq<PlanComponent>)
    requires forall i :: 0 <= i < |rows| ==> IsKey(rows[i].owner, cs)
    ensures OwnedIdentities(rows, cs) == PlanIdentities(rows)
  {
    hide IsKey;
    if rows != [] {
      AllRowsOwned(rows[..|rows| - 1], cs);
    }
  }
}
