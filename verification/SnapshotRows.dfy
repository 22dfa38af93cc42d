/** The parts of a snapshot: which component a path belongs to, how a row relates to it, and which rows each component
    is to have. */
module SnapshotRows {
  import opened Wrappers
  import opened Ordering
  import opened PathKeys
  import opened CleanupTargets
  import opened ByteAccounting
  import CleanupPlanBuilder

  datatype PlanComponent = PlanComponent(key: PathKey, owner: Item, decision: Decision)

  datatype PlanRow = PlanRow(owner: PathKey, evidence: Evidence, relation: Relation)

  /** The relation is None when the audit names none of the known ones. */
  datatype AuditRow = AuditRow(evidence: Evidence, relation: Option<Relation>)

  datatype AuditComponent = AuditComponent(path: PathKey, owner: Item, decision: Decision, rows: seq<AuditRow>)

  /** What identifies one line of evidence: category, tool and id, with the canonical path. */
  type Identity = (string, Option<PathKey>)

  function IdentityOf(e: Evidence): Identity {
    (e.kind, e.item.path)
  }

  // ----- finding the component of a path

  predicate Touches(a: PathKey, b: PathKey) {
    a == b || Contains(a, b) || Contains(b, a)
  }

  /** Some planned component is at, above or below the path. */
  ghost predicate HasMatch(path: Option<PathKey>, cs: seq<PlanComponent>) {
    path.Some? && exists i :: 0 <= i < |cs| && Touches(cs[i].key, path.value)
  }

  /** Exact before containing, deepest first; containing before contained, shallowest first; the first of equals. */
  ghost predicate IsBestMatch(path: PathKey, cs: seq<PlanComponent>, i: int) {
    && 0 <= i < |cs| && Touches(cs[i].key, path)
    && (cs[i].key != path ==> forall j :: 0 <= j < |cs| ==> cs[j].key != path)
    && (Contains(cs[i].key, path) ==>
          forall j :: 0 <= j < |cs| && Contains(cs[j].key, path) ==> Depth(cs[j].key) <= Depth(cs[i].key))
    && (Contains(path, cs[i].key) ==>
          forall j :: 0 <= j < |cs| ==>
            !Contains(cs[j].key, path) && (Contains(path, cs[j].key) ==> Depth(cs[i].key) <= Depth(cs[j].key)))
    && (forall j :: 0 <= j < i && Touches(cs[j].key, path) ==> !IsEquallyGood(path, cs[j].key, cs[i].key))
  }

  /** The two keys are on the same side of the path, equally deep. */
  predicate IsEquallyGood(path: PathKey, a: PathKey, b: PathKey) {
    (Contains(a, path) <==> Contains(b, path)) && (Contains(path, a) <==> Contains(path, b)) && Depth(a) == Depth(b)
  }

  /** There is only one best match. */
  lemma BestMatchIsUnique(path: PathKey, cs: seq<PlanComponent>, i: int, j: int)
    requires IsBestMatch(path, cs, i) && IsBestMatch(path, cs, j)
    ensures i == j
  {
    var a, b := cs[i].key, cs[j].key;
    assert Touches(a, path) && Touches(b, path);
    assert i < j ==> !IsEquallyGood(path, a, b);
    assert j < i ==> !IsEquallyGood(path, b, a);
  }

  method FindContainer(path: PathKey, cs: seq<PlanComponent>) returns (best: int)
    ensures best == -1 ==> forall j :: 0 <= j < |cs| ==> !Contains(cs[j].key, path)
    ensures best != -1 ==> 0 <= best < |cs| && Contains(cs[best].key, path) &&
                           forall j :: 0 <= j < |cs| && Contains(cs[j].key, path) ==>
                             Depth(cs[j].key) <= Depth(cs[best].key)
    ensures best != -1 ==>
              forall j :: 0 <= j < best && Contains(cs[j].key, path) ==> Depth(cs[j].key) < Depth(cs[best].key)
  {
    best := -1;
    for i := 0 to |cs|
      invariant best == -1 ==> forall j :: 0 <= j < i ==> !Contains(cs[j].key, path)
      invariant best != -1 ==> 0 <= best < i && Contains(cs[best].key, path) &&
                               forall j :: 0 <= j < i && Contains(cs[j].key, path) ==>
                                 Depth(cs[j].key) <= Depth(cs[best].key)
      invariant forall j :: 0 <= j < best && Contains(cs[j].key, path) ==> Depth(cs[j].key) < Depth(cs[best].key)
    {
      if Contains(cs[i].key, path) && (best == -1 || Depth(cs[i].key) > Depth(cs[best].key)) {
        best := i;
      }
    }
  }

  method FindContained(path: PathKey, cs: seq<PlanComponent>) returns (best: int)
    ensures best == -1 ==> forall j :: 0 <= j < |cs| ==> !Contains(path, cs[j].key)
    ensures best != -1 ==> 0 <= best < |cs| && Contains(path, cs[best].key) &&
                           forall j :: 0 <= j < |cs| && Contains(path, cs[j].key) ==>
                             Depth(cs[best].key) <= Depth(cs[j].key)
    ensures best != -1 ==>
              forall j :: 0 <= j < best && Contains(path, cs[j].key) ==> Depth(cs[best].key) < Depth(cs[j].key)
  {
    best := -1;
    for i := 0 to |cs|
      invariant best == -1 ==> forall j :: 0 <= j < i ==> !Contains(path, cs[j].key)
      invariant best != -1 ==> 0 <= best < i && Contains(path, cs[best].key) &&
                               forall j :: 0 <= j < i && Contains(path, cs[j].key) ==>
                                 Depth(cs[best].key) <= Depth(cs[j].key)
      invariant forall j :: 0 <= j < best && Contains(path, cs[j].key) ==> Depth(cs[best].key) < Depth(cs[j].key)
    {
      if Contains(path, cs[i].key) && (best == -1 || Depth(cs[i].key) < Depth(cs[best].key)) {
        best := i;
      }
    }
  }

  method ComponentForPath(path: Option<PathKey>, cs: seq<PlanComponent>) returns (index: int, matched: bool)
    ensures matched <==> HasMatch(path, cs)
    ensures matched ==> 0 <= index < |cs| && IsBestMatch(path.value, cs, index)
  {
    if path == None {
      return 0, false;
    }
    for i := 0 to |cs|
      invariant forall j :: 0 <= j < i ==> cs[j].key != path.value
    {
      if cs[i].key == path.value {
        return i, true;
      }
    }
    var best := FindContainer(path.value, cs);
    if best >= 0 {
      return best, true;
    }
    best := FindContained(path.value, cs);
    return best, best >= 0;
  }

  // ----- rows

  function Pad(s: string, width: nat): string
    decreases width - |s|
  {
    if |s| >= width then s else Pad("0" + s, width)
  }

  function SortKey(item: Item, relation: Relation, ordinal: nat): string {
    (match relation case Owner => "0" case Exact => "1" case _ => "2")
    + "\0" + StableKey(item) + "\0" + Pad(CleanupPlanBuilder.Decimal(ordinal), 9)
  }

  function NewRow(c: Component, e: Evidence, relation: Relation): Row {
    Row(e, relation, SortKey(e.item, relation, |c.rows|))
  }

  function WithRow(c: Component, e: Evidence, relation: Relation): Component {
    c.(rows := c.rows + [NewRow(c, e, relation)])
  }

  function AuditRelation(row: AuditRow, owner: Item): Relation {
    match row.relation
    case Some(r) => r
    case None => if owner.path.Some? && owner.path == row.evidence.item.path then Exact else Nested
  }

  function InventoryRelation(item: Item, c: Component): Relation {
    var other := if |c.rows| == 0 then Owner else Nested;
    if c.owner.path.Some? && item.path.Some? then
      if c.owner.path == item.path then (if |c.rows| == 0 then Owner else Exact)
      else if Contains(item.path.value, c.owner.path.value) then Ancestor
      else if Contains(c.owner.path.value, item.path.value) then Nested
      else other
    else other
  }

  // ----- counting evidence

  ghost function RowIdentities(rows: seq<Row>): multiset<Identity> {
    if rows == [] then multiset{}
    else RowIdentities(rows[..|rows| - 1]) + multiset{IdentityOf(rows[|rows| - 1].evidence)}
  }

  /** Every row shown, by identity. */
  ghost function Shown(cs: seq<Component>): multiset<Identity> {
    if cs == [] then multiset{} else Shown(cs[..|cs| - 1]) + RowIdentities(cs[|cs| - 1].rows)
  }

  ghost function PlanIdentities(rows: seq<PlanRow>): multiset<Identity> {
    if rows == [] then multiset{}
    else
      PlanIdentities(rows[..|rows| - 1])
      + multiset{IdentityOf(rows[|rows| - 1].evidence)}
  }

  /** The plan rows whose owner is a component. */
  ghost function OwnedIdentities(rows: seq<PlanRow>, cs: seq<PlanComponent>): multiset<Identity> {
    if rows == [] then multiset{}
    else
      var last := rows[|rows| - 1];
      OwnedIdentities(rows[..|rows| - 1], cs)
        + if IsKey(last.owner, cs) then multiset{IdentityOf(last.evidence)} else multiset{}
  }

  ghost predicate IsKey(p: PathKey, cs: seq<PlanComponent>) {
    exists i :: 0 <= i < |cs| && cs[i].key == p
  }

  ghost function AuditIdentities(rows: seq<AuditRow>): multiset<Identity> {
    if rows == [] then multiset{}
    else
      AuditIdentities(rows[..|rows| - 1])
      + multiset{IdentityOf(rows[|rows| - 1].evidence)}
  }

  ghost function AllAuditIdentities(cs: seq<AuditComponent>): multiset<Identity> {
    if cs == [] then multiset{} else AllAuditIdentities(cs[..|cs| - 1]) + AuditIdentities(cs[|cs| - 1].rows)
  }

  ghost function InventoryIdentities(items: seq<Evidence>): multiset<Identity> {
    if items == [] then multiset{}
    else
      InventoryIdentities(items[..|items| - 1])
      + multiset{IdentityOf(items[|items| - 1])}
  }

  /** What relation an inventory row has, by where the component's owner is and whether the component has rows yet. */
  lemma InventoryRelationIs(item: Item, c: Component)
    ensures var r, known := InventoryRelation(item, c), c.owner.path.Some? && item.path.Some?;
            && (known && Contains(item.path.value, c.owner.path.value) ==> r == Ancestor)
            && (known && Contains(c.owner.path.value, item.path.value) ==> r == Nested)
            && (known && c.owner.path == item.path ==> r == if c.rows == [] then Owner else Exact)
            && (!known ==> r == if c.rows == [] then Owner else Nested)
  {
  }

  /** An audit row keeps a relation the audit names; otherwise it is exact at the owner's path and nested elsewhere. */
  lemma AuditRelationIs(row: AuditRow, owner: Item)
    ensures row.relation.Some? ==> AuditRelation(row, owner) == row.relation.value
    ensures row.relation.None? ==>
              AuditRelation(row, owner) == Exact || AuditRelation(row, owner) == Nested
    ensures row.relation.None? ==>
              (AuditRelation(row, owner) == Exact <==>
               exists p :: owner.path == Some(p) && row.evidence.item.path == Some(p))
  {
  }

  // ----- which rows a component is to have

  /** One line of a component: its evidence and how it relates to the owner. */
  datatype Line = Line(evidence: Evidence, relation: Relation)

  /** The rows that show the lines, each sorted by relation, item and place. */
  function RowsFrom(lines: seq<Line>): (rows: seq<Row>)
    ensures |rows| == |lines|
  {
    seq(|lines|, j requires 0 <= j < |lines| =>
      Row(lines[j].evidence, lines[j].relation, SortKey(lines[j].evidence.item, lines[j].relation, j)))
  }

  lemma RowsFromMore(c: Component, lines: seq<Line>, e: Evidence, relation: Relation)
    requires c.rows == RowsFrom(lines)
    ensures WithRow(c, e, relation) == c.(rows := RowsFrom(lines + [Line(e, relation)]))
  {
    hide SortKey;
  }

  /** No later component has the same key. */
  predicate IsLastKey(cs: seq<PlanComponent>, c: int) {
    0 <= c < |cs| && forall j :: c < j < |cs| ==> cs[j].key != cs[c].key
  }

  /** The plan rows owned by component c, in order, with their relations. */
  ghost function PlanLines(rows: seq<PlanRow>, cs: seq<PlanComponent>, c: int): seq<Line> {
    if rows == [] then []
    else
      var last := rows[|rows| - 1];
      PlanLines(rows[..|rows| - 1], cs, c)
      + if IsLastKey(cs, c) && cs[c].key == last.owner then [Line(last.evidence, last.relation)] else []
  }

  /** Component c has exactly the plan rows it owns. */
  ghost predicate IsPlanned(components: seq<Component>, cs: seq<PlanComponent>, rows: seq<PlanRow>) {
    |components| == |cs| && forall c :: 0 <= c < |cs| ==>
      components[c] == Component(cs[c].key, cs[c].owner, cs[c].decision, 0, RowsFrom(PlanLines(rows, cs, c)))
  }

  /** The audit rows beyond the plan: those whose identity earlier audit rows have used up. */
  ghost function BeyondLines(rows: seq<AuditRow>, seen: multiset<Identity>, plan: multiset<Identity>, owner: Item):
    seq<Line>
  {
    if rows == [] then []
    else
      var front, last := rows[..|rows| - 1], rows[|rows| - 1];
      var k := IdentityOf(last.evidence);
      BeyondLines(front, seen, plan, owner)
      + if (seen + AuditIdentities(front))[k] >= plan[k] then [Line(last.evidence, AuditRelation(last, owner))] else []
  }

  /** The lines audits add to planned component c: those of the audits whose path it matches best. */
  ghost function AuditLines(audits: seq<AuditComponent>, cs: seq<PlanComponent>, plan: multiset<Identity>, c: int):
    seq<Line>
    requires 0 <= c < |cs|
  {
    if audits == [] then []
    else
      var front, last := audits[..|audits| - 1], audits[|audits| - 1];
      AuditLines(front, cs, plan, c)
      + if IsBestMatch(last.path, cs, c) then BeyondLines(last.rows, AllAuditIdentities(front), plan, cs[c].owner)
        else []
  }

  /** How many audits match no planned component. */
  ghost function Unmatched(audits: seq<AuditComponent>, cs: seq<PlanComponent>): nat {
    if audits == [] then 0
    else
      Unmatched(audits[..|audits| - 1], cs) + if HasMatch(Some(audits[|audits| - 1].path), cs) then 0 else 1
  }

  /** The component of an audit that matches none, with the audit's own rows. */
  ghost function NewComponent(audits: seq<AuditComponent>, plan: multiset<Identity>, n: int): Component
    requires 0 <= n < |audits|
  {
    var a := audits[n];
    Component(a.path, a.owner, a.decision, 0,
              RowsFrom(BeyondLines(a.rows, AllAuditIdentities(audits[..n]), plan, a.owner)))
  }

  /** Audit n matches no planned component, and its own is number c. */
  ghost predicate IsNew(audits: seq<AuditComponent>, cs: seq<PlanComponent>, n: int, c: int) {
    && 0 <= n < |audits| && !HasMatch(Some(audits[n].path), cs) && c == |cs| + Unmatched(audits[..n], cs)
  }

  /** Planned component c has its plan rows, then the audit rows beyond the plan of the audits it matches best. */
  ghost predicate HasPlaced(components: seq<Component>, cs: seq<PlanComponent>, rows: seq<PlanRow>,
                            audits: seq<AuditComponent>, c: int)
    requires 0 <= c < |cs|
  {
    c < |components| &&
    components[c] == Component(cs[c].key, cs[c].owner, cs[c].decision, 0,
                               RowsFrom(PlanLines(rows, cs, c) + AuditLines(audits, cs, PlanIdentities(rows), c)))
  }

  /** The component of audit n, if it is c, is there. */
  ghost predicate HasNew(components: seq<Component>, cs: seq<PlanComponent>, rows: seq<PlanRow>,
                         audits: seq<AuditComponent>, n: int, c: int) {
    IsNew(audits, cs, n, c) ==>
      0 <= c < |components| && components[c] == NewComponent(audits, PlanIdentities(rows), n)
  }

  /** Each planned component has its plan rows, then the audit rows beyond the plan of the audits it matches best; each
      audit that matches none has a component of its own with its rows beyond the plan. */
  ghost predicate IsPlaced(components: seq<Component>, cs: seq<PlanComponent>, rows: seq<PlanRow>,
                           audits: seq<AuditComponent>) {
    && |components| == |cs| + Unmatched(audits, cs)
    && (forall c :: 0 <= c < |cs| ==> HasPlaced(components, cs, rows, audits, c))
    && (forall n, c :: HasNew(components, cs, rows, audits, n, c))
  }

  /** The lines of planned component c once the leftover inventory it matches best has joined it. */
  ghost function InventoryLines(before: seq<Line>, inventory: seq<Evidence>, cs: seq<PlanComponent>,
                                shown: multiset<Identity>, c: int): seq<Line>
    requires 0 <= c < |cs|
  {
    if inventory == [] then before
    else
      var front, last := inventory[..|inventory| - 1], inventory[|inventory| - 1];
      var lines := InventoryLines(before, front, cs, shown, c);
      if IsLeftover(front, last, shown) && last.item.path.Some? && IsBestMatch(last.item.path.value, cs, c)
      then lines + [Line(last, InventoryRelation(last.item, Component(cs[c].key, cs[c].owner, cs[c].decision, 0,
                                                                      RowsFrom(lines))))]
      else lines
  }

  /** What is shown of the item's identity has been used up by earlier items. */
  ghost predicate IsLeftover(earlier: seq<Evidence>, item: Evidence, shown: multiset<Identity>) {
    InventoryIdentities(earlier)[IdentityOf(item)] >= shown[IdentityOf(item)]
  }

  /** Leftover inventory has joined the planned components it matches best, and nothing else has changed. */
  ghost predicate HasInventory(components: seq<Component>, was: seq<Component>, cs: seq<PlanComponent>,
                               inventory: seq<Evidence>, shown: multiset<Identity>) {
    && |components| == |was|
    && (forall c :: 0 <= c < |cs| && c < |was| ==>
          forall before :: was[c].rows == RowsFrom(before) ==>
            components[c] == was[c].(rows := RowsFrom(InventoryLines(before, inventory, cs, shown, c))))
    && (forall c :: |cs| <= c < |was| ==> components[c] == was[c])
  }
}
