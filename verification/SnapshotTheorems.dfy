/** Where the rows of a snapshot come from and where they go. */
module SnapshotTheorems {
  import opened Wrappers
  import opened Ordering
  import opened PathKeys
  import opened CleanupTargets
  import opened ByteAccounting
  import opened SnapshotRows
  import opened Snapshot
  import opened CleanupPlanBuilder

  // ----- what counts as evidence

  /** Evidence is the same when its category, tool and id are and its canonical path is. */
  lemma IdentityIs(a: Evidence, b: Evidence)
    ensures IdentityOf(a) == IdentityOf(b) <==> a.kind == b.kind && a.item.path == b.item.path
  {
  }

  /** Plan rows, audit rows and inventory are counted by identity. */
  lemma {:induction false} PlanIsCounted(rows: seq<PlanRow>)
    ensures PlanIdentities(rows) == multiset(seq(|rows|, i requires 0 <= i < |rows| => IdentityOf(rows[i].evidence)))
  {
    hide IdentityOf;
    var keys := seq(|rows|, i requires 0 <= i < |rows| => IdentityOf(rows[i].evidence));
    if rows != [] {
      var front := rows[..|rows| - 1];
      PlanIsCounted(front);
      assert keys == seq(|front|, i requires 0 <= i < |front| => IdentityOf(front[i].evidence)) + [keys[|front|]];
    }
  }

  lemma {:induction false} AuditIsCounted(rows: seq<AuditRow>)
    ensures AuditIdentities(rows) == multiset(seq(|rows|, i requires 0 <= i < |rows| => IdentityOf(rows[i].evidence)))
  {
    hide IdentityOf;
    var keys := seq(|rows|, i requires 0 <= i < |rows| => IdentityOf(rows[i].evidence));
    if rows != [] {
      var front := rows[..|rows| - 1];
      AuditIsCounted(front);
      assert keys == seq(|front|, i requires 0 <= i < |front| => IdentityOf(front[i].evidence)) + [keys[|front|]];
    }
  }

  lemma {:induction false} InventoryIsCounted(items: seq<Evidence>)
    ensures InventoryIdentities(items) == multiset(seq(|items|, i requires 0 <= i < |items| => IdentityOf(items[i])))
  {
    hide IdentityOf;
    var keys := seq(|items|, i requires 0 <= i < |items| => IdentityOf(items[i]));
    if items != [] {
      var front := items[..|items| - 1];
      InventoryIsCounted(front);
      assert keys == seq(|front|, i requires 0 <= i < |front| => IdentityOf(front[i])) + [keys[|front|]];
    }
  }

  lemma {:induction false} RowsAreCounted(rows: seq<Row>)
    ensures RowIdentities(rows) == multiset(seq(|rows|, i requires 0 <= i < |rows| => IdentityOf(rows[i].evidence)))
  {
    hide IdentityOf;
    var keys := seq(|rows|, i requires 0 <= i < |rows| => IdentityOf(rows[i].evidence));
    if rows != [] {
      var front := rows[..|rows| - 1];
      RowsAreCounted(front);
      assert keys == seq(|front|, i requires 0 <= i < |front| => IdentityOf(front[i].evidence)) + [keys[|front|]];
    }
  }

  /** What is shown in all is what each component shows. */
  lemma {:induction false} ShownIsASum(a: seq<Component>, b: seq<Component>)
    ensures Shown(a + b) == Shown(a) + Shown(b) && Shown([]) == multiset{}
    ensures forall c :: Shown([c]) == RowIdentities(c.rows)
  {
    hide RowIdentities;
    assert forall c :: Shown([c][..0]) == multiset{};
    LastOfBoth(a, b);
    if b != [] {
      ShownIsASum(a, b[..|b| - 1]);
    }
  }

  lemma {:induction false} AuditsAreASum(a: seq<AuditComponent>, b: seq<AuditComponent>)
    ensures AllAuditIdentities(a + b) == AllAuditIdentities(a) + AllAuditIdentities(b)
    ensures AllAuditIdentities([]) == multiset{}
    ensures forall c :: AllAuditIdentities([c]) == AuditIdentities(c.rows)
  {
    hide AuditIdentities;
    assert forall c :: AllAuditIdentities([c][..0]) == multiset{};
    LastOfBoth(a, b);
    if b != [] {
      AuditsAreASum(a, b[..|b| - 1]);
    }
  }

  // ----- which lines a component is to have

  /** The rows before n whose owner is the key. */
  ghost function OwnedBefore(rows: seq<PlanRow>, key: PathKey, n: int): set<int> {
    set m | 0 <= m < n && m < |rows| && rows[m].owner == key
  }

  lemma OwnedInFront(rows: seq<PlanRow>, key: PathKey)
    requires rows != []
    ensures var front := rows[..|rows| - 1];
            && (forall n :: 0 <= n <= |front| ==> OwnedBefore(rows, key, n) == OwnedBefore(front, key, n))
            && |OwnedBefore(rows, key, |rows|)| ==
               |OwnedBefore(front, key, |front|)| + if rows[|front|].owner == key then 1 else 0
  {
    var front := rows[..|rows| - 1];
    assert OwnedBefore(rows, key, |rows|) ==
           OwnedBefore(front, key, |front|) + if rows[|front|].owner == key then {|front|} else {};
  }

  lemma {:induction false} PlanLinesCount(rows: seq<PlanRow>, cs: seq<PlanComponent>, c: int)
    requires IsLastKey(cs, c)
    ensures |PlanLines(rows, cs, c)| == |OwnedBefore(rows, cs[c].key, |rows|)|
  {
    hide IsLastKey, OwnedBefore;
    LastKeyIsIndex(cs, c);
    if rows != [] {
      PlanLinesCount(rows[..|rows| - 1], cs, c);
      OwnedInFront(rows, cs[c].key);
    } else {
      NoneOwned(cs[c].key);
    }
  }

  lemma NoneOwned(key: PathKey)
    ensures |OwnedBefore([], key, 0)| == 0
  {
    assert OwnedBefore([], key, 0) == {};
  }

  /** The plan lines of the last component with a key are those of the rows with that owner, in order. */
  lemma {:induction false} PlanLinesExactly(rows: seq<PlanRow>, cs: seq<PlanComponent>, c: int, n: int)
    requires IsLastKey(cs, c)
    ensures |PlanLines(rows, cs, c)| == |OwnedBefore(rows, cs[c].key, |rows|)|
    ensures 0 <= n < |rows| && rows[n].owner == cs[c].key ==>
              var at := |OwnedBefore(rows, cs[c].key, n)|;
              at < |PlanLines(rows, cs, c)| && PlanLines(rows, cs, c)[at] == Line(rows[n].evidence, rows[n].relation)
  {
    PlanLinesCount(rows, cs, c);
    LastKeyIsIndex(cs, c);
    hide IsLastKey, OwnedBefore;
    if 0 <= n < |rows| && rows[n].owner == cs[c].key {
      var front := rows[..|rows| - 1];
      OwnedInFront(rows, cs[c].key);
      if n < |front| {
        PlanLinesExactly(front, cs, c, n);
      } else {
        PlanLinesCount(front, cs, c);
      }
    }
  }

  /** Row n of an audit is beyond the plan: earlier audit rows have used its identity as often as the plan has it. */
  ghost predicate IsBeyond(rows: seq<AuditRow>, n: int, seen: multiset<Identity>, plan: multiset<Identity>) {
    0 <= n < |rows| &&
    var k := IdentityOf(rows[n].evidence);
    (seen + AuditIdentities(rows[..n]))[k] >= plan[k]
  }

  ghost function BeyondBefore(rows: seq<AuditRow>, n: int, seen: multiset<Identity>,
                              plan: multiset<Identity>): set<int> {
    set m | 0 <= m < n && IsBeyond(rows, m, seen, plan)
  }

  lemma {:induction false} BeyondLinesCount(rows: seq<AuditRow>, seen: multiset<Identity>, plan: multiset<Identity>,
                                            owner: Item)
    ensures |BeyondLines(rows, seen, plan, owner)| == |BeyondBefore(rows, |rows|, seen, plan)|
  {
    hide AuditIdentities, IdentityOf, AuditRelation, BeyondBefore;
    if rows != [] {
      BeyondLinesCount(rows[..|rows| - 1], seen, plan, owner);
      BeyondInFront(rows, seen, plan);
    } else {
      NoneBeyond(seen, plan);
    }
  }

  lemma NoneBeyond(seen: multiset<Identity>, plan: multiset<Identity>)
    ensures |BeyondBefore([], 0, seen, plan)| == 0
  {
    assert BeyondBefore([], 0, seen, plan) == {};
  }

  /** An audit's lines beyond the plan are those of its rows beyond the plan, in order. */
  lemma {:induction false} BeyondLinesExactly(rows: seq<AuditRow>, seen: multiset<Identity>, plan: multiset<Identity>,
                                              owner: Item, n: int)
    ensures |BeyondLines(rows, seen, plan, owner)| == |BeyondBefore(rows, |rows|, seen, plan)|
    ensures IsBeyond(rows, n, seen, plan) ==>
              var at := |BeyondBefore(rows, n, seen, plan)|;
              && at < |BeyondLines(rows, seen, plan, owner)|
              && BeyondLines(rows, seen, plan, owner)[at] == Line(rows[n].evidence, AuditRelation(rows[n], owner))
  {
    hide AuditIdentities, IdentityOf, AuditRelation, BeyondBefore;
    BeyondLinesCount(rows, seen, plan, owner);
    if IsBeyond(rows, n, seen, plan) {
      var front := rows[..|rows| - 1];
      BeyondInFront(rows, seen, plan);
      if n < |front| {
        BeyondLinesExactly(front, seen, plan, owner, n);
      } else {
        BeyondLinesCount(front, seen, plan, owner);
      }
    }
  }

  lemma BeyondInFront(rows: seq<AuditRow>, seen: multiset<Identity>, plan: multiset<Identity>)
    requires rows != []
    ensures var front := rows[..|rows| - 1];
            forall n :: 0 <= n < |front| ==> (IsBeyond(rows, n, seen, plan) <==> IsBeyond(front, n, seen, plan))
    ensures var front := rows[..|rows| - 1];
            forall n :: 0 <= n <= |front| ==> BeyondBefore(rows, n, seen, plan) == BeyondBefore(front, n, seen, plan)
    ensures var last := |rows| - 1;
            |BeyondBefore(rows, |rows|, seen, plan)| ==
            |BeyondBefore(rows[..last], last, seen, plan)| + if IsBeyond(rows, last, seen, plan) then 1 else 0
  {
    hide AuditIdentities, IdentityOf;
    var front := rows[..|rows| - 1];
    assert forall n :: 0 <= n < |front| ==> front[..n] == rows[..n];
    assert BeyondBefore(rows, |rows|, seen, plan) ==
           BeyondBefore(front, |front|, seen, plan) + if IsBeyond(rows, |front|, seen, plan) then {|front|} else {};
  }

  /** The audits before n that match no planned component. */
  ghost function UnmatchedBefore(audits: seq<AuditComponent>, cs: seq<PlanComponent>, n: int): set<int> {
    set m | 0 <= m < n && m < |audits| && !HasMatch(Some(audits[m].path), cs)
  }

  lemma {:induction false} UnmatchedCount(audits: seq<AuditComponent>, cs: seq<PlanComponent>)
    ensures Unmatched(audits, cs) == |UnmatchedBefore(audits, cs, |audits|)|
  {
    hide HasMatch;
    if audits != [] {
      var last := |audits| - 1;
      var front := audits[..last];
      UnmatchedCount(front, cs);
      assert UnmatchedBefore(audits, cs, |audits|) ==
             UnmatchedBefore(front, cs, last) + if HasMatch(Some(audits[last].path), cs) then {} else {last};
    }
  }

  // ----- whose rows a component shows

  /** The path's rows go to the component with the key: the one that matches best, or, when none does, its own. */
  ghost predicate GoesTo(path: PathKey, key: PathKey, cs: seq<PlanComponent>) {
    || (exists c :: IsBestMatch(path, cs, c) && cs[c].key == key)
    || (!HasMatch(Some(path), cs) && key == path)
  }

  ghost predicate IsPlanLine(line: Line, key: PathKey, cs: seq<PlanComponent>, rows: seq<PlanRow>) {
    IsKey(key, cs) &&
    exists n :: 0 <= n < |rows| && rows[n].owner == key && line == Line(rows[n].evidence, rows[n].relation)
  }

  ghost predicate IsAuditLine(line: Line, key: PathKey, owner: Item, cs: seq<PlanComponent>, rows: seq<PlanRow>,
                              audits: seq<AuditComponent>) {
    exists n, m ::
      && 0 <= n < |audits| && IsBeyond(audits[n].rows, m, AllAuditIdentities(audits[..n]), PlanIdentities(rows))
      && GoesTo(audits[n].path, key, cs)
      && line == Line(audits[n].rows[m].evidence, AuditRelation(audits[n].rows[m], owner))
  }

  /** Inventory item n is left over: earlier items have used up what plan and audits show of its identity. */
  ghost predicate IsLeft(inventory: seq<Evidence>, n: int, cs: seq<PlanComponent>, rows: seq<PlanRow>,
                         audits: seq<AuditComponent>) {
    0 <= n < |inventory| &&
    var k := IdentityOf(inventory[n]);
    InventoryIdentities(inventory[..n])[k] >= WithAudit(k, cs, rows, audits)
  }

  /** The relation of an inventory line depends on the rows before it, and is left open here. */
  ghost predicate IsInventoryLine(line: Line, key: PathKey, cs: seq<PlanComponent>, rows: seq<PlanRow>,
                                  audits: seq<AuditComponent>, inventory: seq<Evidence>) {
    exists n :: IsLeft(inventory, n, cs, rows, audits) && line.evidence == inventory[n]
      && IsMatchOf(inventory[n], key, cs)
  }

  ghost predicate IsMatchOf(e: Evidence, key: PathKey, cs: seq<PlanComponent>) {
    e.item.path.Some? && exists c :: IsBestMatch(e.item.path.value, cs, c) && cs[c].key == key
  }

  ghost predicate Belongs(line: Line, key: PathKey, owner: Item, cs: seq<PlanComponent>, rows: seq<PlanRow>,
                          audits: seq<AuditComponent>, inventory: seq<Evidence>) {
    || IsPlanLine(line, key, cs, rows)
    || IsAuditLine(line, key, owner, cs, rows, audits)
    || IsInventoryLine(line, key, cs, rows, audits, inventory)
  }

  lemma {:induction false} PlanLinesBelong(rows: seq<PlanRow>, cs: seq<PlanComponent>, c: int, line: Line)
    requires 0 <= c < |cs| && line in PlanLines(rows, cs, c)
    ensures IsPlanLine(line, cs[c].key, cs, rows)
  {
    var front, last := rows[..|rows| - 1], rows[|rows| - 1];
    if line in PlanLines(front, cs, c) {
      PlanLinesBelong(front, cs, c, line);
      var n :| 0 <= n < |front| && front[n].owner == cs[c].key && line == Line(front[n].evidence, front[n].relation);
      assert rows[n] == front[n];
    } else {
      assert rows[|rows| - 1] == last;
    }
  }

  lemma {:induction false} BeyondBelongs(rows: seq<AuditRow>, seen: multiset<Identity>, plan: multiset<Identity>,
                                         owner: Item, line: Line) returns (n: int)
    requires line in BeyondLines(rows, seen, plan, owner)
    ensures IsBeyond(rows, n, seen, plan) && line == Line(rows[n].evidence, AuditRelation(rows[n], owner))
  {
    hide AuditIdentities, IdentityOf, AuditRelation;
    var front := rows[..|rows| - 1];
    if line in BeyondLines(front, seen, plan, owner) {
      n := BeyondBelongs(front, seen, plan, owner, line);
      assert front[..n] == rows[..n];
    } else {
      n := |rows| - 1;
    }
  }

  lemma AuditLineOf(audits: seq<AuditComponent>, n: int, line: Line, key: PathKey, owner: Item, cs: seq<PlanComponent>,
                    rows: seq<PlanRow>)
    requires 0 <= n < |audits| && GoesTo(audits[n].path, key, cs)
    requires line in BeyondLines(audits[n].rows, AllAuditIdentities(audits[..n]), PlanIdentities(rows), owner)
    ensures IsAuditLine(line, key, owner, cs, rows, audits)
  {
    hide GoesTo, IsBeyond, BeyondLines, AuditRelation, AllAuditIdentities, PlanIdentities;
    var m := BeyondBelongs(audits[n].rows, AllAuditIdentities(audits[..n]), PlanIdentities(rows), owner, line);
  }

  lemma {:induction false} AuditLinesFrom(audits: seq<AuditComponent>, cs: seq<PlanComponent>,
                                          plan: multiset<Identity>, c: int, line: Line) returns (n: int)
    requires 0 <= c < |cs| && line in AuditLines(audits, cs, plan, c)
    ensures 0 <= n < |audits| && IsBestMatch(audits[n].path, cs, c)
    ensures line in BeyondLines(audits[n].rows, AllAuditIdentities(audits[..n]), plan, cs[c].owner)
  {
    hide IsBestMatch, BeyondLines, AllAuditIdentities;
    n := |audits| - 1;
    if line in AuditLines(audits[..n], cs, plan, c) {
      ghost var front := audits[..n];
      n := AuditLinesFrom(front, cs, plan, c, line);
      assert audits[n] == front[n] && audits[..n] == front[..n];
    }
  }

  lemma {:induction false} InventoryLinesFrom(before: seq<Line>, inventory: seq<Evidence>, cs: seq<PlanComponent>,
                                              shown: multiset<Identity>, c: int, line: Line) returns (n: int)
    requires 0 <= c < |cs| && line in InventoryLines(before, inventory, cs, shown, c) && line !in before
    ensures 0 <= n < |inventory| && IsLeftover(inventory[..n], inventory[n], shown) && line.evidence == inventory[n]
    ensures inventory[n].item.path.Some? && IsBestMatch(inventory[n].item.path.value, cs, c)
  {
    hide IsBestMatch, IsLeftover, InventoryRelation, RowsFrom;
    n := |inventory| - 1;
    if line in InventoryLines(before, inventory[..n], cs, shown, c) {
      ghost var front := inventory[..n];
      n := InventoryLinesFrom(before, front, cs, shown, c, line);
      assert inventory[n] == front[n] && inventory[..n] == front[..n];
    }
  }

  lemma LinesBelong(audited: seq<Component>, cs: seq<PlanComponent>, rows: seq<PlanRow>, audits: seq<AuditComponent>,
                    inventory: seq<Evidence>, c: int, line: Line)
    requires 0 <= c < |cs| && ShowsAudited(audited, cs, rows, audits)
    requires line in InventoryLines(LinesOf(rows, audits, cs, c), inventory, cs, Shown(audited), c)
    ensures Belongs(line, cs[c].key, cs[c].owner, cs, rows, audits, inventory)
  {
    hide IsBestMatch, HasMatch, InventoryLines, PlanLines, AuditLines, BeyondLines, RowsFrom, Shown, WithAudit;
    hide IsPlanLine, IsAuditLine, AllAuditIdentities, PlanIdentities, InventoryIdentities;
    if line in PlanLines(rows, cs, c) {
      PlanLinesBelong(rows, cs, c, line);
    } else if line in AuditLines(audits, cs, PlanIdentities(rows), c) {
      var n := AuditLinesFrom(audits, cs, PlanIdentities(rows), c, line);
      AuditLineOf(audits, n, line, cs[c].key, cs[c].owner, cs, rows);
    } else {
      var n := InventoryLinesFrom(LinesOf(rows, audits, cs, c), inventory, cs, Shown(audited), c, line);
      BestMatchIsIndex(inventory[n].item.path.value, cs, c);
      assert IsLeft(inventory, n, cs, rows, audits) && IsMatchOf(inventory[n], cs[c].key, cs);
    }
  }

  // ----- what becomes of a row when the components are finished

  /** The row shows the evidence, with the relation or as the owner row. */
  ghost predicate IsShownAs(row: Row, e: Evidence, relation: Relation) {
    row.evidence == e && (row.relation == relation || row.relation == Owner)
  }

  ghost predicate ShowsLine(c: Component, line: Line) {
    exists row :: row in c.rows && IsShownAs(row, line.evidence, line.relation)
  }

  /** The component has a row for each line, and no other rows. */
  ghost predicate HasLines(c: Component, lines: seq<Line>) {
    && (forall line :: line in lines ==> ShowsLine(c, line))
    && (forall row :: row in c.rows ==> ComesFrom(row, lines))
  }

  ghost predicate ComesFrom(row: Row, lines: seq<Line>) {
    exists line :: line in lines && IsShownAs(row, line.evidence, line.relation)
  }

  lemma FinishedHasLines(now: Component, was: Component, lines: seq<Line>)
    requires IsFinished(now, was) && was.rows == RowsFrom(lines)
    ensures HasLines(now, lines)
  {
    hide SortKey, RowLess;
    var sorted :| Ordered(sorted, RowLess) && multiset(sorted) == multiset(was.rows) && now.rows == OwnerFirst(sorted);
    forall line | line in lines ensures ShowsLine(now, line) {
      var j :| 0 <= j < |lines| && lines[j] == line;
      assert was.rows[j] in multiset(sorted);
      var i :| 0 <= i < |sorted| && sorted[i] == was.rows[j];
      assert now.rows[i] in now.rows && IsShownAs(now.rows[i], line.evidence, line.relation);
    }
    forall row | row in now.rows ensures ComesFrom(row, lines) {
      var i :| 0 <= i < |now.rows| && now.rows[i] == row;
      assert sorted[i] in multiset(was.rows);
      var j :| 0 <= j < |was.rows| && was.rows[j] == sorted[i];
      assert lines[j] in lines && IsShownAs(row, lines[j].evidence, lines[j].relation);
    }
  }

  lemma FinalFrom(components: seq<Component>, ordered: seq<Component>, finished: seq<Component>, i: int)
    returns (f: int)
    requires IsPermutation(ordered, finished) && SameButBytes(components, ordered) && 0 <= i < |components|
    ensures 0 <= f < |finished| && components[i].(bytes := finished[f].bytes) == finished[f]
  {
    assert ordered[i] in multiset(finished);
    f :| 0 <= f < |finished| && finished[f] == ordered[i];
  }

  lemma FinalOf(components: seq<Component>, ordered: seq<Component>, finished: seq<Component>, f: int) returns (i: int)
    requires IsPermutation(ordered, finished) && SameButBytes(components, ordered) && 0 <= f < |finished|
    ensures 0 <= i < |components| && components[i].(bytes := finished[f].bytes) == finished[f]
  {
    assert finished[f] in multiset(ordered);
    i :| 0 <= i < |ordered| && ordered[i] == finished[f];
  }

  // ----- the order of rows

  lemma {:induction false} PadMoves(s: string, d: char, w: nat)
    ensures Pad(s + [d], w + 1) == Pad(s, w) + [d]
    decreases w - |s|
  {
    if |s| < w {
      assert "0" + (s + [d]) == ("0" + s) + [d];
      PadMoves("0" + s, d, w);
    }
  }

  function Power(w: nat): nat {
    if w == 0 then 1 else 10 * Power(w - 1)
  }

  lemma {:induction false} PaddedDigits(n: nat, w: nat)
    requires n < Power(w + 1)
    ensures |Pad(Decimal(n), w + 1)| == w + 1
    ensures w > 0 ==> Pad(Decimal(n), w + 1) == Pad(Decimal(n / 10), w) + ["0123456789"[n % 10]]
    decreases w
  {
    if w > 0 {
      PaddedDigits(n / 10, w - 1);
      if n < 10 {
        assert Decimal(n) == ["0123456789"[n]] && Decimal(0) == "0" && Pad("0", 1) == "0";
        assert "0" + Decimal(n) == "0" + ["0123456789"[n % 10]];
        PadMoves("0", "0123456789"[n % 10], w);
      } else {
        PadMoves(Decimal(n / 10), "0123456789"[n % 10], w);
      }
    }
  }

  lemma OneDigit(m: nat, n: nat)
    requires m < n < 10
    ensures Pad(Decimal(m), 1) == ["0123456789"[m]] && Pad(Decimal(n), 1) == ["0123456789"[n]]
    ensures LexLess(["0123456789"[m]], ["0123456789"[n]])
  {
  }

  lemma PaddedStep(p: string, q: string, m: nat, n: nat)
    requires m < 10 && n < 10 && |p| == |q| && (LexLess(p, q) || (p == q && m < n))
    ensures LexLess(p + ["0123456789"[m]], q + ["0123456789"[n]])
  {
    hide LexLess;
    if LexLess(p, q) {
      LessStays(p, q, ["0123456789"[m]], ["0123456789"[n]]);
    } else {
      OneDigit(m, n);
      SamePrefix(p, ["0123456789"[m]], ["0123456789"[n]]);
    }
  }

  /** Numbers of one width are ordered as strings as they are as numbers. */
  lemma {:induction false} PaddedOrder(m: nat, n: nat, w: nat)
    requires m < n < Power(w + 1)
    ensures LexLess(Pad(Decimal(m), w + 1), Pad(Decimal(n), w + 1))
    decreases w
  {
    hide LexLess, Pad, Decimal;
    if w > 0 {
      PaddedDigits(m, w);
      PaddedDigits(n, w);
      PaddedDigits(m / 10, w - 1);
      PaddedDigits(n / 10, w - 1);
      if m / 10 < n / 10 {
        PaddedOrder(m / 10, n / 10, w - 1);
      }
      PaddedStep(Pad(Decimal(m / 10), w), Pad(Decimal(n / 10), w), m % 10, n % 10);
    } else {
      OneDigit(m, n);
    }
  }

  /** Owner rows come before exact ones, and these before all others. */
  lemma OwnersComeFirst(a: Item, r: Relation, i: nat, b: Item, q: Relation, j: nat)
    requires (r == Owner && q != Owner) || (r == Exact && q != Owner && q != Exact)
    ensures LexLess(SortKey(a, r, i), SortKey(b, q, j))
  {
    hide StableKey;
    var x := "\0" + StableKey(a) + "\0" + Pad(Decimal(i), 9);
    var y := "\0" + StableKey(b) + "\0" + Pad(Decimal(j), 9);
    assert SortKey(a, r, i) == (if r == Owner then "0" else "1") + x;
    assert SortKey(b, q, j) == (if q == Exact then "1" else "2") + y;
    hide SortKey;
    LessStays(if r == Owner then "0" else "1", if q == Exact then "1" else "2", x, y);
  }

  /** Rows of the same item and relation stay in order, below a thousand million rows. */
  lemma EqualItemsStayInOrder(a: Item, r: Relation, i: nat, b: Item, j: nat)
    requires i < j < 1_000_000_000 && StableKey(a) == StableKey(b)
    ensures LexLess(SortKey(a, r, i), SortKey(b, r, j))
  {
    assert Power(9) == 1_000_000_000;
    hide StableKey, LexLess;
    var rank := match r case Owner => "0" case Exact => "1" case _ => "2";
    var p := rank + "\0" + StableKey(a) + "\0";
    assert SortKey(a, r, i) == p + Pad(Decimal(i), 9);
    assert SortKey(b, r, j) == p + Pad(Decimal(j), 9);
    hide SortKey, Pad, Decimal;
    PaddedOrder(i, j, 8);
    SamePrefix(p, Pad(Decimal(i), 9), Pad(Decimal(j), 9));
  }

  // ----- the finished snapshot

  lemma {:induction false} NewOf(audits: seq<AuditComponent>, cs: seq<PlanComponent>, f: int) returns (n: int)
    requires |cs| <= f < |cs| + Unmatched(audits, cs)
    ensures IsNew(audits, cs, n, f)
  {
    hide HasMatch;
    n := |audits| - 1;
    if f < |cs| + Unmatched(audits[..n], cs) {
      ghost var front := audits[..n];
      n := NewOf(front, cs, f);
      assert audits[n] == front[n] && audits[..n] == front[..n];
    }
  }

  /** What planned component c has once the inventory has joined it. */
  lemma MergedAt(s: Stages, components: seq<Component>, cs: seq<PlanComponent>, rows: seq<PlanRow>,
                 audits: seq<AuditComponent>, inventory: seq<Evidence>, c: int)
    requires AreStages(s, components, cs, rows, audits, inventory) && 0 <= c < |cs|
    ensures c < |s.merged| && s.merged[c].key == cs[c].key && s.merged[c].owner == cs[c].owner
    ensures s.merged[c].decision == cs[c].decision
    ensures s.merged[c].rows ==
            RowsFrom(InventoryLines(LinesOf(rows, audits, cs, c), inventory, cs, Shown(s.audited), c))
  {
    hide ShowsAudited, RowsFrom, InventoryLines, Shown, HasNew, AreFinished, IsPermutation, SameButBytes, PlanLines,
         AuditLines, PlanIdentities, Unmatched;
    assert HasPlaced(s.audited, cs, rows, audits, c);
    var before := LinesOf(rows, audits, cs, c);
    assert s.audited[c].rows == RowsFrom(before);
    assert s.merged[c] == s.audited[c].(rows := RowsFrom(InventoryLines(before, inventory, cs, Shown(s.audited), c)));
  }

  /** What the component of an unmatched audit has. */
  lemma NewAt(s: Stages, components: seq<Component>, cs: seq<PlanComponent>, rows: seq<PlanRow>,
              audits: seq<AuditComponent>, inventory: seq<Evidence>, n: int, f: int)
    requires AreStages(s, components, cs, rows, audits, inventory) && IsNew(audits, cs, n, f)
    ensures 0 <= n < |audits| && 0 <= f < |s.merged|
    ensures s.merged[f].key == audits[n].path && s.merged[f].owner == audits[n].owner
    ensures s.merged[f].decision == audits[n].decision
    ensures s.merged[f].rows ==
            RowsFrom(BeyondLines(audits[n].rows, AllAuditIdentities(audits[..n]), PlanIdentities(rows),
                                 audits[n].owner))
  {
    hide ShowsAudited, RowsFrom, InventoryLines, Shown, HasPlaced, AreFinished, IsPermutation, SameButBytes,
         BeyondLines, AllAuditIdentities, PlanIdentities, HasMatch;
    assert HasNew(s.audited, cs, rows, audits, n, f);
  }

  lemma MergedLength(s: Stages, components: seq<Component>, cs: seq<PlanComponent>, rows: seq<PlanRow>,
                     audits: seq<AuditComponent>, inventory: seq<Evidence>)
    requires AreStages(s, components, cs, rows, audits, inventory)
    ensures |s.merged| == |cs| + Unmatched(audits, cs)
  {
    hide ShowsAudited, HasPlaced, HasNew, AreFinished, IsPermutation, SameButBytes, Shown, RowsFrom;
  }

  lemma StagesShow(s: Stages, components: seq<Component>, cs: seq<PlanComponent>, rows: seq<PlanRow>,
                   audits: seq<AuditComponent>, inventory: seq<Evidence>)
    requires AreStages(s, components, cs, rows, audits, inventory)
    ensures ShowsAudited(s.audited, cs, rows, audits) && AreFinished(s.finished, s.merged)
    ensures IsPermutation(s.ordered, s.finished) && SameButBytes(components, s.ordered)
  {
    hide ShowsAudited, IsPlaced, AreFinished, IsPermutation, SameButBytes, Shown, HasInventory;
  }

  /** The lines component f is to have, all of which belong to it. */
  lemma LinesAt(s: Stages, components: seq<Component>, cs: seq<PlanComponent>, rows: seq<PlanRow>,
                audits: seq<AuditComponent>, inventory: seq<Evidence>, f: int) returns (lines: seq<Line>)
    requires AreStages(s, components, cs, rows, audits, inventory) && 0 <= f < |s.merged|
    ensures s.merged[f].rows == RowsFrom(lines)
    ensures forall line :: line in lines ==>
                             Belongs(line, s.merged[f].key, s.merged[f].owner, cs, rows, audits, inventory)
  {
    hide *;
    StagesShow(s, components, cs, rows, audits, inventory);
    MergedLength(s, components, cs, rows, audits, inventory);
    if f < |cs| {
      MergedAt(s, components, cs, rows, audits, inventory, f);
      lines := InventoryLines(LinesOf(rows, audits, cs, f), inventory, cs, Shown(s.audited), f);
      forall line | line in lines ensures Belongs(line, cs[f].key, cs[f].owner, cs, rows, audits, inventory) {
        LinesBelong(s.audited, cs, rows, audits, inventory, f, line);
      }
    } else {
      var n := NewOf(audits, cs, f);
      NewAt(s, components, cs, rows, audits, inventory, n, f);
      var a := audits[n];
      lines := BeyondLines(a.rows, AllAuditIdentities(audits[..n]), PlanIdentities(rows), a.owner);
      forall line | line in lines ensures Belongs(line, a.path, a.owner, cs, rows, audits, inventory) {
        NewGoesToItself(audits, cs, n, f);
        AuditLineOf(audits, n, line, a.path, a.owner, cs, rows);
        AuditLineBelongs(line, a.path, a.owner, cs, rows, audits, inventory);
      }
    }
  }

  lemma NewGoesToItself(audits: seq<AuditComponent>, cs: seq<PlanComponent>, n: int, f: int)
    requires IsNew(audits, cs, n, f)
    ensures 0 <= n < |audits| && GoesTo(audits[n].path, audits[n].path, cs)
  {
    hide HasMatch, IsBestMatch;
  }

  lemma AuditLineBelongs(line: Line, key: PathKey, owner: Item, cs: seq<PlanComponent>, rows: seq<PlanRow>,
                         audits: seq<AuditComponent>, inventory: seq<Evidence>)
    requires IsAuditLine(line, key, owner, cs, rows, audits)
    ensures Belongs(line, key, owner, cs, rows, audits, inventory)
  {
    hide IsAuditLine;
  }

  /** Every row of a snapshot is a plan row of its component, an audit row beyond the plan whose path its component
      matches best or stands for alone, or a leftover inventory item whose path its component matches best. */
  lemma RowsAreWhereTheyBelong(components: seq<Component>, cs: seq<PlanComponent>, rows: seq<PlanRow>,
                               audits: seq<AuditComponent>, inventory: seq<Evidence>, i: int, row: Row)
    returns (line: Line)
    requires IsMerged(components, cs, rows, audits, inventory) && 0 <= i < |components| && row in components[i].rows
    ensures IsShownAs(row, line.evidence, line.relation)
    ensures Belongs(line, components[i].key, components[i].owner, cs, rows, audits, inventory)
  {
    hide IsPlaced, ShowsAudited, HasInventory, IsPermutation, SameButBytes, Shown, Belongs, IsFinished, IsShownAs;
    var s :| AreStages(s, components, cs, rows, audits, inventory);
    var f := FinalFrom(components, s.ordered, s.finished, i);
    var lines := LinesAt(s, components, cs, rows, audits, inventory, f);
    FinishedHasLines(s.finished[f], s.merged[f], lines);
    FinishedKeeps(s.finished[f], s.merged[f]);
    assert ComesFrom(row, lines);
    line :| line in lines && IsShownAs(row, line.evidence, line.relation);
  }

  lemma FinishedKeeps(now: Component, was: Component)
    requires IsFinished(now, was)
    ensures now.key == was.key && now.owner == was.owner && now.decision == was.decision
  {
  }

  // ----- nothing is missing

  lemma {:induction false} AuditLinesHave(audits: seq<AuditComponent>, cs: seq<PlanComponent>,
                                          plan: multiset<Identity>, c: int, n: int, line: Line)
    requires 0 <= c < |cs| && 0 <= n < |audits| && IsBestMatch(audits[n].path, cs, c)
    requires line in BeyondLines(audits[n].rows, AllAuditIdentities(audits[..n]), plan, cs[c].owner)
    ensures line in AuditLines(audits, cs, plan, c)
  {
    hide IsBestMatch, BeyondLines, AllAuditIdentities;
    if n < |audits| - 1 {
      var front := audits[..|audits| - 1];
      assert audits[n] == front[n] && audits[..n] == front[..n];
      AuditLinesHave(front, cs, plan, c, n, line);
    }
  }

  lemma {:induction false} InventoryLinesHave(before: seq<Line>, inventory: seq<Evidence>, cs: seq<PlanComponent>,
                                              shown: multiset<Identity>, c: int, n: int) returns (line: Line)
    requires 0 <= c < |cs| && 0 <= n < |inventory| && IsLeftover(inventory[..n], inventory[n], shown)
    requires inventory[n].item.path.Some? && IsBestMatch(inventory[n].item.path.value, cs, c)
    ensures line in InventoryLines(before, inventory, cs, shown, c) && line.evidence == inventory[n]
  {
    hide IsBestMatch, IsLeftover, InventoryRelation, RowsFrom;
    var front := inventory[..|inventory| - 1];
    if n < |front| {
      assert inventory[n] == front[n] && inventory[..n] == front[..n];
      line := InventoryLinesHave(before, front, cs, shown, c, n);
    } else {
      var lines := InventoryLines(before, inventory, cs, shown, c);
      line := lines[|lines| - 1];
    }
  }

  lemma {:induction false} InventoryLinesKeep(before: seq<Line>, inventory: seq<Evidence>, cs: seq<PlanComponent>,
                                              shown: multiset<Identity>, c: int, line: Line)
    requires 0 <= c < |cs| && line in before
    ensures line in InventoryLines(before, inventory, cs, shown, c)
  {
    hide IsBestMatch, IsLeftover, InventoryRelation, RowsFrom;
    if inventory != [] {
      InventoryLinesKeep(before, inventory[..|inventory| - 1], cs, shown, c, line);
    }
  }

  /** A component with the key shows the evidence with the relation, or as its owner row. */
  ghost predicate IsShownUnder(components: seq<Component>, key: PathKey, e: Evidence, relation: Relation) {
    exists i :: 0 <= i < |components| && components[i].key == key && ShowsLine(components[i], Line(e, relation))
  }

  lemma ShownUnder(s: Stages, components: seq<Component>, f: int, lines: seq<Line>, line: Line)
    requires AreFinished(s.finished, s.merged) && IsPermutation(s.ordered, s.finished)
    requires SameButBytes(components, s.ordered)
    requires 0 <= f < |s.merged| && s.merged[f].rows == RowsFrom(lines) && line in lines
    ensures IsShownUnder(components, s.merged[f].key, line.evidence, line.relation)
  {
    hide IsPermutation, SameButBytes, IsFinished, RowsFrom;
    var i := FinalOf(components, s.ordered, s.finished, f);
    FinishedHasLines(s.finished[f], s.merged[f], lines);
    FinishedKeeps(s.finished[f], s.merged[f]);
    hide IsShownAs;
    assert ShowsLine(s.finished[f], line) && line == Line(line.evidence, line.relation);
    var row :| row in s.finished[f].rows && IsShownAs(row, line.evidence, line.relation);
    assert row in components[i].rows;
    assert ShowsLine(components[i], Line(line.evidence, line.relation));
  }

  /** A line planned component c has from the plan or the audits is shown under its key. */
  lemma PlannedLineIsShown(s: Stages, components: seq<Component>, cs: seq<PlanComponent>, rows: seq<PlanRow>,
                           audits: seq<AuditComponent>, inventory: seq<Evidence>, c: int, line: Line)
    requires AreStages(s, components, cs, rows, audits, inventory) && 0 <= c < |cs|
    requires line in InventoryLines(LinesOf(rows, audits, cs, c), inventory, cs, Shown(s.audited), c)
    ensures IsShownUnder(components, cs[c].key, line.evidence, line.relation)
  {
    hide *;
    StagesShow(s, components, cs, rows, audits, inventory);
    MergedAt(s, components, cs, rows, audits, inventory, c);
    ShownUnder(s, components, c, InventoryLines(LinesOf(rows, audits, cs, c), inventory, cs, Shown(s.audited), c),
               line);
  }

  lemma {:induction false} LastKeyOf(cs: seq<PlanComponent>, key: PathKey) returns (c: int)
    requires IsKey(key, cs)
    ensures IsLastKey(cs, c) && cs[c].key == key
  {
    c := |cs| - 1;
    if cs[c].key != key {
      ghost var front := cs[..c];
      var i :| 0 <= i < |cs| && cs[i].key == key;
      assert front[i].key == key;
      c := LastKeyOf(front, key);
      assert cs[c] == front[c];
    }
  }

  /** A plan row whose owner is a component is shown under it. */
  lemma PlanRowIsShown(components: seq<Component>, cs: seq<PlanComponent>, rows: seq<PlanRow>,
                       audits: seq<AuditComponent>, inventory: seq<Evidence>, n: int)
    requires IsMerged(components, cs, rows, audits, inventory) && 0 <= n < |rows| && IsKey(rows[n].owner, cs)
    ensures IsShownUnder(components, rows[n].owner, rows[n].evidence, rows[n].relation)
  {
    hide AreStages, InventoryLines, Shown, AuditLines, IsShownUnder, IsKey, PlanIdentities;
    var s :| AreStages(s, components, cs, rows, audits, inventory);
    var c := LastKeyOf(cs, rows[n].owner);
    LastKeyIsIndex(cs, c);
    PlanLinesExactly(rows, cs, c, n);
    hide PlanLines, IsLastKey;
    var line := Line(rows[n].evidence, rows[n].relation);
    InventoryLinesKeep(LinesOf(rows, audits, cs, c), inventory, cs, Shown(s.audited), c, line);
    PlannedLineIsShown(s, components, cs, rows, audits, inventory, c, line);
  }

  lemma BeyondIsLine(rows: seq<AuditRow>, seen: multiset<Identity>, plan: multiset<Identity>, owner: Item, m: int)
    requires IsBeyond(rows, m, seen, plan)
    ensures 0 <= m < |rows|
    ensures Line(rows[m].evidence, AuditRelation(rows[m], owner)) in BeyondLines(rows, seen, plan, owner)
  {
    hide AuditRelation, BeyondLines, BeyondBefore;
    BeyondLinesExactly(rows, seen, plan, owner, m);
  }

  /** An audit row beyond the plan is shown under the component its audit's path matches best. */
  lemma MatchedRowIsShown(components: seq<Component>, cs: seq<PlanComponent>, rows: seq<PlanRow>,
                          audits: seq<AuditComponent>, inventory: seq<Evidence>, n: int, m: int, c: int)
    requires IsMerged(components, cs, rows, audits, inventory)
    requires 0 <= n < |audits| && IsBestMatch(audits[n].path, cs, c)
    requires IsBeyond(audits[n].rows, m, AllAuditIdentities(audits[..n]), PlanIdentities(rows))
    ensures var row := audits[n].rows[m];
            IsShownUnder(components, cs[c].key, row.evidence, AuditRelation(row, cs[c].owner))
  {
    BeyondIsLine(audits[n].rows, AllAuditIdentities(audits[..n]), PlanIdentities(rows), cs[c].owner, m);
    hide AreStages, InventoryLines, Shown, IsShownUnder, PlanIdentities, AllAuditIdentities, BeyondLines, AuditRelation;
    var s :| AreStages(s, components, cs, rows, audits, inventory);
    var line := Line(audits[n].rows[m].evidence, AuditRelation(audits[n].rows[m], cs[c].owner));
    AuditLinesHave(audits, cs, PlanIdentities(rows), c, n, line);
    hide IsBestMatch, AuditLines, PlanLines;
    InventoryLinesKeep(LinesOf(rows, audits, cs, c), inventory, cs, Shown(s.audited), c, line);
    PlannedLineIsShown(s, components, cs, rows, audits, inventory, c, line);
  }

  /** An audit row beyond the plan whose audit matches no component is shown under a component of the audit's own. */
  lemma UnmatchedRowIsShown(components: seq<Component>, cs: seq<PlanComponent>, rows: seq<PlanRow>,
                            audits: seq<AuditComponent>, inventory: seq<Evidence>, n: int, m: int)
    requires IsMerged(components, cs, rows, audits, inventory)
    requires 0 <= n < |audits| && !HasMatch(Some(audits[n].path), cs)
    requires IsBeyond(audits[n].rows, m, AllAuditIdentities(audits[..n]), PlanIdentities(rows))
    ensures var row := audits[n].rows[m];
            IsShownUnder(components, audits[n].path, row.evidence, AuditRelation(row, audits[n].owner))
  {
    var a := audits[n];
    BeyondIsLine(a.rows, AllAuditIdentities(audits[..n]), PlanIdentities(rows), a.owner, m);
    hide AreStages, IsShownUnder, PlanIdentities, AllAuditIdentities, BeyondLines, AuditRelation, HasMatch, Unmatched;
    var s :| AreStages(s, components, cs, rows, audits, inventory);
    var f := |cs| + Unmatched(audits[..n], cs);
    assert IsNew(audits, cs, n, f);
    NewAt(s, components, cs, rows, audits, inventory, n, f);
    StagesShow(s, components, cs, rows, audits, inventory);
    var line := Line(a.rows[m].evidence, AuditRelation(a.rows[m], a.owner));
    ShownUnder(s, components, f, BeyondLines(a.rows, AllAuditIdentities(audits[..n]), PlanIdentities(rows), a.owner),
               line);
  }

  /** A leftover inventory item is shown under the component its path matches best. */
  lemma LeftoverIsShown(components: seq<Component>, cs: seq<PlanComponent>, rows: seq<PlanRow>,
                        audits: seq<AuditComponent>, inventory: seq<Evidence>, n: int, c: int)
    requires IsMerged(components, cs, rows, audits, inventory) && IsLeft(inventory, n, cs, rows, audits)
    requires inventory[n].item.path.Some? && IsBestMatch(inventory[n].item.path.value, cs, c)
    ensures exists relation :: IsShownUnder(components, cs[c].key, inventory[n], relation)
  {
    hide IsPlaced, HasInventory, AreFinished, IsPermutation, SameButBytes, InventoryLines, Shown, IsShownUnder;
    hide InventoryIdentities, WithAudit, LinesOf;
    var s :| AreStages(s, components, cs, rows, audits, inventory);
    BestMatchIsIndex(inventory[n].item.path.value, cs, c);
    hide IsBestMatch;
    var line := InventoryLinesHave(LinesOf(rows, audits, cs, c), inventory, cs, Shown(s.audited), c, n);
    PlannedLineIsShown(s, components, cs, rows, audits, inventory, c, line);
    assert IsShownUnder(components, cs[c].key, inventory[n], line.relation);
  }

  /** Where some component is at, above or below the path, one matches best. */
  lemma {:induction false} BestMatchExists(path: PathKey, cs: seq<PlanComponent>) returns (i: int)
    requires HasMatch(Some(path), cs)
    ensures IsBestMatch(path, cs, i)
  {
    var last := |cs| - 1;
    ghost var front := cs[..last];
    if HasMatch(Some(path), front) {
      i := BestMatchExists(path, front);
      if IsBetter(path, cs[last].key, front[i].key) {
        i := last;
      }
    } else {
      i := last;
    }
  }

  /** Matching exactly, or containing more deeply, or being contained less deeply. */
  ghost predicate IsBetter(path: PathKey, a: PathKey, b: PathKey) {
    || (a == path && b != path)
    || (Contains(a, path) && b != path && (!Contains(b, path) || Depth(a) > Depth(b)))
    || (Contains(path, a) && Contains(path, b) && Depth(a) < Depth(b))
  }

  // ----- which components there are

  /** The component is the planned one's. */
  predicate IsPlannedOne(d: Component, c: PlanComponent) {
    d.key == c.key && d.owner == c.owner && d.decision == c.decision
  }

  /** The component is the audit's own. */
  predicate IsAuditsOwn(d: Component, a: AuditComponent) {
    d.key == a.path && d.owner == a.owner && d.decision == a.decision
  }

  /** Every component of a snapshot has key, owner and decision of a planned one, or of an audit that matches none; and
      there are as many as both together. */
  lemma ComponentsCome(components: seq<Component>, cs: seq<PlanComponent>, rows: seq<PlanRow>,
                       audits: seq<AuditComponent>, inventory: seq<Evidence>, i: int)
    requires IsMerged(components, cs, rows, audits, inventory) && 0 <= i < |components|
    ensures |components| == |cs| + |UnmatchedBefore(audits, cs, |audits|)|
    ensures || (exists c :: 0 <= c < |cs| && IsPlannedOne(components[i], cs[c]))
            || (exists n :: n in UnmatchedBefore(audits, cs, |audits|) && IsAuditsOwn(components[i], audits[n]))
  {
    hide AreStages, AreFinished, IsFinished, IsPermutation, SameButBytes, Unmatched, UnmatchedBefore, IsNew, RowsFrom;
    UnmatchedCount(audits, cs);
    var s :| AreStages(s, components, cs, rows, audits, inventory);
    StagesShow(s, components, cs, rows, audits, inventory);
    MergedLength(s, components, cs, rows, audits, inventory);
    SameLengths(s, components);
    var f := FinalFrom(components, s.ordered, s.finished, i);
    FinishedAt(s, f);
    if f < |cs| {
      MergedAt(s, components, cs, rows, audits, inventory, f);
      assert IsPlannedOne(components[i], cs[f]);
    } else {
      var n := NewOf(audits, cs, f);
      NewAt(s, components, cs, rows, audits, inventory, n, f);
      NewIsUnmatched(audits, cs, n, f);
      assert IsAuditsOwn(components[i], audits[n]);
    }
  }

  lemma SameLengths(s: Stages, components: seq<Component>)
    requires AreFinished(s.finished, s.merged) && IsPermutation(s.ordered, s.finished)
    requires SameButBytes(components, s.ordered)
    ensures |components| == |s.merged| == |s.finished|
  {
    hide IsFinished;
    assert |multiset(s.ordered)| == |s.ordered| && |multiset(s.finished)| == |s.finished|;
  }

  lemma FinishedAt(s: Stages, f: int)
    requires AreFinished(s.finished, s.merged) && 0 <= f < |s.merged|
    ensures f < |s.finished| && s.finished[f].key == s.merged[f].key && s.finished[f].owner == s.merged[f].owner
    ensures s.finished[f].decision == s.merged[f].decision
  {
    FinishedKeeps(s.finished[f], s.merged[f]);
  }

  lemma NewIsUnmatched(audits: seq<AuditComponent>, cs: seq<PlanComponent>, n: int, f: int)
    requires IsNew(audits, cs, n, f)
    ensures n in UnmatchedBefore(audits, cs, |audits|)
  {
    hide HasMatch;
  }

  ghost predicate HasPlannedOne(components: seq<Component>, c: PlanComponent) {
    exists i :: 0 <= i < |components| && IsPlannedOne(components[i], c)
  }

  ghost predicate HasAuditsOwn(components: seq<Component>, a: AuditComponent) {
    exists i :: 0 <= i < |components| && IsAuditsOwn(components[i], a)
  }

  /** Each planned component, and each audit that matches none, has its component. */
  lemma EachHasAComponent(components: seq<Component>, cs: seq<PlanComponent>, rows: seq<PlanRow>,
                          audits: seq<AuditComponent>, inventory: seq<Evidence>)
    requires IsMerged(components, cs, rows, audits, inventory)
    ensures forall c :: 0 <= c < |cs| ==> HasPlannedOne(components, cs[c])
    ensures forall n :: 0 <= n < |audits| && !HasMatch(Some(audits[n].path), cs) ==> HasAuditsOwn(components, audits[n])
  {
    hide AreStages, AreFinished, IsFinished, IsPermutation, SameButBytes, Unmatched, RowsFrom, HasMatch;
    var s :| AreStages(s, components, cs, rows, audits, inventory);
    StagesShow(s, components, cs, rows, audits, inventory);
    forall c | 0 <= c < |cs| ensures HasPlannedOne(components, cs[c]) {
      MergedAt(s, components, cs, rows, audits, inventory, c);
      FinishedAt(s, c);
      var i := FinalOf(components, s.ordered, s.finished, c);
      assert IsPlannedOne(components[i], cs[c]);
    }
    forall n | 0 <= n < |audits| && !HasMatch(Some(audits[n].path), cs)
      ensures HasAuditsOwn(components, audits[n])
    {
      var f := |cs| + Unmatched(audits[..n], cs);
      assert IsNew(audits, cs, n, f);
      NewAt(s, components, cs, rows, audits, inventory, n, f);
      FinishedAt(s, f);
      var i := FinalOf(components, s.ordered, s.finished, f);
      assert IsAuditsOwn(components[i], audits[n]);
    }
  }
}
