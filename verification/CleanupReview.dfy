/** Reviewing a plan: numbering the unlocked owners and toggling them. */
module CleanupReview {
  import opened Wrappers
  import opened Ordering
  import opened PathKeys
  import opened CleanupTargets
  import opened CleanupPlan
  import opened CleanupComponents
  import opened CleanupPlanTheorems
  import opened CleanupPlanBytes

  // ----- numbering

  /** The owners of the unlocked rows, each once, in row order; the first has number one. */
  function OwnersOf(rows: seq<Row>): seq<Option<PathKey>> {
    if rows == [] then []
    else
      var before, row := OwnersOf(rows[..|rows| - 1]), rows[|rows| - 1];
      if row.selection != Locked && row.owner !in before then before + [row.owner] else before
  }

  function NumberIn(numbers: map<Option<PathKey>, int>, owner: Option<PathKey>): int {
    if owner in numbers then numbers[owner] else 0
  }

  ghost predicate AreNumbers(numbers: map<Option<PathKey>, int>, owners: seq<Option<PathKey>>) {
    && (forall o :: NumberIn(numbers, o) != 0 ==>
        1 <= NumberIn(numbers, o) <= |owners| && owners[NumberIn(numbers, o) - 1] == o)
    && (forall o :: o in owners ==> NumberIn(numbers, o) != 0)
  }

  lemma NumbersStep(numbers: map<Option<PathKey>, int>, owners: seq<Option<PathKey>>, o: Option<PathKey>)
    requires AreNumbers(numbers, owners)
    ensures NumberIn(numbers, o) == 0 <==> o !in owners
    ensures o !in owners ==> AreNumbers(numbers[o := |owners| + 1], owners + [o])
  {
    if o !in owners {
      var after, all := numbers[o := |owners| + 1], owners + [o];
      forall p
        ensures NumberIn(after, p) != 0 ==> 1 <= NumberIn(after, p) <= |all| && all[NumberIn(after, p) - 1] == p
      {
        assert p != o ==> NumberIn(after, p) == NumberIn(numbers, p);
      }
      forall p | p in all ensures NumberIn(after, p) != 0 {
        assert p != o ==> p in owners && NumberIn(after, p) == NumberIn(numbers, p);
      }
    }
  }

  lemma {:induction false} OwnersGrow(rows: seq<Row>, n: nat)
    requires n <= |rows|
    ensures |OwnersOf(rows[..n])| <= |OwnersOf(rows)|
    ensures forall k :: 0 <= k < |OwnersOf(rows[..n])| ==> OwnersOf(rows)[k] == OwnersOf(rows[..n])[k]
  {
    if n < |rows| {
      var front := rows[..|rows| - 1];
      OwnersGrow(front, n);
      assert front[..n] == rows[..n];
    } else {
      assert rows[..n] == rows;
    }
  }

  /** Locked rows get no number; the others get the place of their owner among the owners. */
  method NumberRows(rows: seq<Row>) returns (numbers: seq<int>)
    ensures |numbers| == |rows|
    ensures forall i :: 0 <= i < |rows| ==>
              if rows[i].selection == Locked then numbers[i] == 0
              else 1 <= numbers[i] <= |OwnersOf(rows)| && OwnersOf(rows)[numbers[i] - 1] == rows[i].owner
  {
    hide OwnersOf;
    numbers := [];
    var number := 0;
    var numbersByOwner: map<Option<PathKey>, int> := map[];
    OwnersStep(rows, 0);
    for n := 0 to |rows|
      invariant |numbers| == n && number == |OwnersOf(rows[..n])| && AreNumbers(numbersByOwner, OwnersOf(rows[..n]))
      invariant forall i :: 0 <= i < n ==>
                  if rows[i].selection == Locked then numbers[i] == 0
                  else 1 <= numbers[i] <= |OwnersOf(rows)| && OwnersOf(rows)[numbers[i] - 1] == rows[i].owner
    {
      var row := rows[n];
      OwnersStep(rows, n);
      if row.selection != Locked {
        NumbersStep(numbersByOwner, OwnersOf(rows[..n]), row.owner);
        var existing := NumberIn(numbersByOwner, row.owner);
        if existing == 0 {
          number := number + 1;
          existing := number;
          numbersByOwner := numbersByOwner[row.owner := existing];
        }
        OwnersGrow(rows, n + 1);
        assert OwnersOf(rows[..n + 1])[existing - 1] == row.owner;
        numbers := numbers + [existing];
      } else {
        numbers := numbers + [0];
      }
    }
  }

  lemma OwnersStep(rows: seq<Row>, n: nat)
    requires n <= |rows|
    ensures OwnersOf(rows[..0]) == []
    ensures n < |rows| ==>
              OwnersOf(rows[..n + 1]) ==
              if rows[n].selection != Locked && rows[n].owner !in OwnersOf(rows[..n])
              then OwnersOf(rows[..n]) + [rows[n].owner]
              else OwnersOf(rows[..n])
  {
    if n < |rows| {
      assert rows[..n + 1][..n] == rows[..n];
    }
  }

  lemma {:induction false} OwnerHasRow(rows: seq<Row>, k: nat)
    requires k < |OwnersOf(rows)|
    ensures exists i :: 0 <= i < |rows| && rows[i].selection != Locked && rows[i].owner == OwnersOf(rows)[k]
  {
    var front := rows[..|rows| - 1];
    if k < |OwnersOf(front)| {
      OwnerHasRow(front, k);
      var i :| 0 <= i < |front| && front[i].selection != Locked && front[i].owner == OwnersOf(front)[k];
      assert rows[i] == front[i];
    } else {
      assert rows[|rows| - 1].owner == OwnersOf(rows)[k];
    }
  }

  lemma {:induction false} OwnersAreDistinct(rows: seq<Row>)
    ensures forall i, j :: 0 <= i < j < |OwnersOf(rows)| ==> OwnersOf(rows)[i] != OwnersOf(rows)[j]
  {
    if rows != [] {
      OwnersAreDistinct(rows[..|rows| - 1]);
    }
  }

  // ----- toggling

  function Opposite(s: Selection): Selection {
    if s == Selected then Unselected else Selected
  }

  /** The owner with the number, if there is one. */
  function Numbered(rows: seq<Row>, number: int): Option<PathKey> {
    if 1 <= number <= |OwnersOf(rows)| then OwnersOf(rows)[number - 1] else None
  }

  method FindOwner(rows: seq<Row>, number: int) returns (owner: Option<PathKey>)
    ensures owner == Numbered(rows, number)
  {
    hide OwnersOf;
    owner := None;
    if number <= 0 {
      return;
    }
    var numbers := NumberRows(rows);
    for i := 0 to |rows|
      invariant forall j :: 0 <= j < i ==> !(numbers[j] == number && rows[j].selection != Locked)
    {
      if numbers[i] == number && rows[i].selection != Locked {
        return rows[i].owner;
      }
    }
    if number <= |OwnersOf(rows)| {
      ghost var i := NumberIsUsed(rows, numbers, number);
    }
  }

  lemma NumberIsUsed(rows: seq<Row>, numbers: seq<int>, number: int) returns (i: int)
    requires 1 <= number <= |OwnersOf(rows)| && |numbers| == |rows|
    requires forall j :: 0 <= j < |rows| && rows[j].selection != Locked ==>
               1 <= numbers[j] <= |OwnersOf(rows)| && OwnersOf(rows)[numbers[j] - 1] == rows[j].owner
    ensures 0 <= i < |rows| && numbers[i] == number && rows[i].selection != Locked
  {
    OwnerHasRow(rows, number - 1);
    OwnersAreDistinct(rows);
    hide OwnersOf;
    i :| 0 <= i < |rows| && rows[i].selection != Locked && rows[i].owner == OwnersOf(rows)[number - 1];
    assert OwnersOf(rows)[numbers[i] - 1] == OwnersOf(rows)[number - 1];
  }

  /** An unlocked component of the owner is flipped; the last flipped one decides the new selection. */
  function NewSelection(cs: seq<Component>, o: PathKey): Option<Selection> {
    if cs == [] then None
    else if cs[|cs| - 1].key == o && cs[|cs| - 1].selection != Locked then Some(Opposite(cs[|cs| - 1].selection))
    else NewSelection(cs[..|cs| - 1], o)
  }

  predicate IsFlipped(c: Component, o: PathKey) {
    c.key == o && c.selection != Locked
  }

  function FlippedComponents(cs: seq<Component>, o: PathKey): (r: seq<Component>)
    ensures |r| == |cs|
  {
    seq(|cs|, i requires 0 <= i < |cs| =>
      if IsFlipped(cs[i], o) then cs[i].(selection := Opposite(cs[i].selection)) else cs[i])
  }

  function SetTargets(ts: seq<Target>, o: PathKey, s: Selection): (r: seq<Target>)
    ensures |r| == |ts|
  {
    seq(|ts|, i requires 0 <= i < |ts| => if ts[i].owner == Some(o) then ts[i].(selection := s) else ts[i])
  }

  function SetRows(rows: seq<Row>, o: PathKey, s: Selection): (r: seq<Row>)
    ensures |r| == |rows|
  {
    seq(|rows|, i requires 0 <= i < |rows| => if rows[i].owner == Some(o) then rows[i].(selection := s) else rows[i])
  }

  /** The plan after toggling the number; unchanged when nothing has it or its owner has no unlocked component. */
  function Toggle(plan: Plan, number: int): Plan {
    match Numbered(plan.rows, number)
    case None => plan
    case Some(o) =>
      match NewSelection(plan.components, o)
      case None => plan
      case Some(s) => Plan(SetRows(plan.rows, o, s), SetTargets(plan.targets, o, s),
                           FlippedComponents(plan.components, o))
  }

  method ToggleRow(plan: Plan, number: int) returns (next: Plan, changed: bool)
    ensures next == Toggle(plan, number)
    ensures changed <==>
              Numbered(plan.rows, number).Some?
              && NewSelection(plan.components, Numbered(plan.rows, number).value).Some?
  {
    hide Numbered, NewSelection, SetTargets, SetRows, FlippedComponents;
    var owner := FindOwner(plan.rows, number);
    if owner == None {
      return plan, false;
    }
    var components, selection := FlipOwner(plan.components, owner.value);
    if selection == None {
      return plan, false;
    }
    var targets := SelectOwnersTargets(plan.targets, owner.value, selection.value);
    var rows := SelectOwnersRows(plan.rows, owner.value, selection.value);
    return Plan(rows, targets, components), true;
  }

  /** The owner's component flipped, unless locked; the selection it has then. */
  method FlipOwner(was: seq<Component>, o: PathKey) returns (components: seq<Component>, selection: Option<Selection>)
    ensures components == FlippedComponents(was, o) && selection == NewSelection(was, o)
  {
    components, selection := was, None;
    for i := 0 to |components|
      invariant |components| == |was|
      invariant forall k :: 0 <= k < |components| ==>
                  components[k] == if k < i then FlippedComponents(was, o)[k] else was[k]
      invariant selection == NewSelection(was[..i], o)
    {
      assert was[..i + 1][..i] == was[..i];
      if components[i].key != o || components[i].selection == Locked {
        continue;
      }
      if components[i].selection == Selected {
        selection := Some(Unselected);
      } else {
        selection := Some(Selected);
      }
      components := components[i := components[i].(selection := selection.value)];
    }
    assert was[..|components|] == was;
  }

  method SelectOwnersTargets(was: seq<Target>, o: PathKey, s: Selection) returns (targets: seq<Target>)
    ensures targets == SetTargets(was, o, s)
  {
    targets := was;
    for i := 0 to |targets|
      invariant |targets| == |was|
      invariant forall k :: 0 <= k < |targets| ==> targets[k] == if k < i then SetTargets(was, o, s)[k] else was[k]
    {
      if targets[i].owner == Some(o) {
        targets := targets[i := targets[i].(selection := s)];
      }
    }
  }

  method SelectOwnersRows(was: seq<Row>, o: PathKey, s: Selection) returns (rows: seq<Row>)
    ensures rows == SetRows(was, o, s)
  {
    rows := was;
    for i := 0 to |rows|
      invariant |rows| == |was|
      invariant forall k :: 0 <= k < |rows| ==> rows[k] == if k < i then SetRows(was, o, s)[k] else was[k]
    {
      if rows[i].owner == Some(o) {
        rows := rows[i := rows[i].(selection := s)];
      }
    }
  }

  // ----- what toggles come to

  function Flip(s: Selection, flip: bool): Selection {
    if flip && s != Locked then Opposite(s) else s
  }

  /** Every row, target and component of the owners flipped, unless locked. */
  function FlipAll(plan: Plan, owners: set<PathKey>): Plan {
    Plan(
      seq(|plan.rows|, i requires 0 <= i < |plan.rows| =>
        plan.rows[i].(selection := Flip(plan.rows[i].selection, plan.rows[i].owner.Some?
                                        && plan.rows[i].owner.value in owners))),
      seq(|plan.targets|, i requires 0 <= i < |plan.targets| =>
        plan.targets[i].(selection := Flip(plan.targets[i].selection, plan.targets[i].owner.Some?
                                           && plan.targets[i].owner.value in owners))),
      seq(|plan.components|, i requires 0 <= i < |plan.components| =>
        plan.components[i].(selection := Flip(plan.components[i].selection, plan.components[i].key in owners))))
  }

  /** Some component is that owner's and has the selection. */
  ghost predicate HasComponent(cs: seq<Component>, owner: Option<PathKey>, s: Selection) {
    exists i :: 0 <= i < |cs| && owner == Some(cs[i].key) && cs[i].selection == s
  }

  ghost predicate DistinctComponents(cs: seq<Component>) {
    forall i, j :: 0 <= i < j < |cs| ==> cs[i].key != cs[j].key
  }

  /** Rows, targets and components agree on selection. */
  ghost predicate IsCoherent(plan: Plan) {
    && DistinctComponents(plan.components)
    && (forall i :: 0 <= i < |plan.rows| ==> HasComponent(plan.components, plan.rows[i].owner, plan.rows[i].selection))
    && (forall i :: 0 <= i < |plan.targets| ==>
        HasComponent(plan.components, plan.targets[i].owner, plan.targets[i].selection))
  }

  /** Numbers do not move when selections flip. */
  lemma {:induction false} NumbersAreStable(rows: seq<Row>, other: seq<Row>)
    requires |rows| == |other| && forall i :: 0 <= i < |rows| ==>
               rows[i].owner == other[i].owner && (rows[i].selection == Locked <==> other[i].selection == Locked)
    ensures OwnersOf(rows) == OwnersOf(other)
  {
    if rows != [] {
      NumbersAreStable(rows[..|rows| - 1], other[..|other| - 1]);
    }
  }

  lemma NumbersStayPut(plan: Plan, owners: set<PathKey>)
    ensures OwnersOf(FlipAll(plan, owners).rows) == OwnersOf(plan.rows)
  {
    NumbersAreStable(FlipAll(plan, owners).rows, plan.rows);
  }

  lemma {:induction false} NewSelectionIs(cs: seq<Component>, o: PathKey, i: int)
    requires DistinctComponents(cs) && 0 <= i < |cs| && cs[i].key == o
    ensures NewSelection(cs, o) == if cs[i].selection == Locked then None else Some(Opposite(cs[i].selection))
  {
    if i < |cs| - 1 {
      NewSelectionIs(cs[..|cs| - 1], o, i);
    } else {
      NoOtherComponent(cs[..|cs| - 1], o);
    }
  }

  lemma {:induction false} NoOtherComponent(cs: seq<Component>, o: PathKey)
    requires forall i :: 0 <= i < |cs| ==> cs[i].key != o
    ensures NewSelection(cs, o) == None
  {
    if cs != [] {
      NoOtherComponent(cs[..|cs| - 1], o);
    }
  }

  /** Flipping owners keeps a plan coherent. */
  lemma FlippingKeepsCoherence(plan: Plan, owners: set<PathKey>)
    requires IsCoherent(plan)
    ensures IsCoherent(FlipAll(plan, owners))
  {
    var next := FlipAll(plan, owners);
    forall owner, s | HasComponent(plan.components, owner, s)
      ensures HasComponent(next.components, owner, Flip(s, owner.Some? && owner.value in owners))
    {
      var i :| 0 <= i < |plan.components| && owner == Some(plan.components[i].key) && plan.components[i].selection == s;
      assert next.components[i].key == plan.components[i].key;
    }
    forall i | 0 <= i < |next.rows| ensures HasComponent(next.components, next.rows[i].owner, next.rows[i].selection) {
      assert HasComponent(plan.components, plan.rows[i].owner, plan.rows[i].selection);
    }
    forall i | 0 <= i < |next.targets|
      ensures HasComponent(next.components, next.targets[i].owner, next.targets[i].selection)
    {
      assert HasComponent(plan.components, plan.targets[i].owner, plan.targets[i].selection);
    }
  }

  /** In a coherent plan, toggling flips exactly the numbered owner. */
  lemma ToggleFlipsOwner(plan: Plan, number: int)
    requires IsCoherent(plan)
    ensures Toggle(plan, number) ==
            FlipAll(plan, if Numbered(plan.rows, number).Some? then {Numbered(plan.rows, number).value} else {})
  {
    hide OwnersOf;
    match Numbered(plan.rows, number) {
      case None =>
        assert FlipAll(plan, {}) == plan;
      case Some(o) =>
        OwnerHasRow(plan.rows, number - 1);
        var r :| 0 <= r < |plan.rows| && plan.rows[r].selection != Locked && plan.rows[r].owner == Some(o);
        assert HasComponent(plan.components, plan.rows[r].owner, plan.rows[r].selection);
        var c :| 0 <= c < |plan.components| && plan.components[c].key == o
          && plan.components[c].selection == plan.rows[r].selection;
        NewSelectionIs(plan.components, o, c);
        SettingIsFlipping(plan, o, c);
    }
  }

  lemma SettingIsFlipping(plan: Plan, o: PathKey, c: int)
    requires IsCoherent(plan) && 0 <= c < |plan.components| && plan.components[c].key == o
             && plan.components[c].selection != Locked
    ensures var s := Opposite(plan.components[c].selection);
            FlipAll(plan, {o}) == Plan(SetRows(plan.rows, o, s), SetTargets(plan.targets, o, s),
                                       FlippedComponents(plan.components, o))
  {
    var s := Opposite(plan.components[c].selection);
    forall owner, t | HasComponent(plan.components, owner, t) && owner == Some(o)
      ensures t == plan.components[c].selection
    {
      var i :| 0 <= i < |plan.components| && owner == Some(plan.components[i].key) && plan.components[i].selection == t;
      assert i == c;
    }
    assert forall i :: 0 <= i < |plan.rows| ==>
      HasComponent(plan.components, plan.rows[i].owner, plan.rows[i].selection);
    assert FlipAll(plan, {o}).rows == SetRows(plan.rows, o, s);
    assert forall i :: 0 <= i < |plan.targets| ==>
      HasComponent(plan.components, plan.targets[i].owner, plan.targets[i].selection);
    assert FlipAll(plan, {o}).targets == SetTargets(plan.targets, o, s);
    assert FlipAll(plan, {o}).components == FlippedComponents(plan.components, o);
  }

  // ----- all toggle sequences

  function ToggleEach(plan: Plan, numbers: seq<int>): Plan {
    if numbers == [] then plan else Toggle(ToggleEach(plan, numbers[..|numbers| - 1]), numbers[|numbers| - 1])
  }

  predicate IsOdd(n: int) {
    n % 2 == 1
  }

  /** The owners whose number occurs an odd number of times. */
  function OddOwners(rows: seq<Row>, numbers: seq<int>): set<PathKey> {
    set k | 0 <= k < |OwnersOf(rows)| && OwnersOf(rows)[k].Some?
      && IsOdd(multiset(numbers)[k + 1]) :: OwnersOf(rows)[k].value
  }

  lemma FlipTwice(plan: Plan, a: set<PathKey>, b: set<PathKey>)
    ensures FlipAll(FlipAll(plan, a), b) == FlipAll(plan, (a - b) + (b - a))
  {
    var one, two := FlipAll(FlipAll(plan, a), b), FlipAll(plan, (a - b) + (b - a));
    assert one.rows == two.rows;
    assert one.targets == two.targets;
    assert one.components == two.components;
  }

  lemma OddOwnersStep(rows: seq<Row>, numbers: seq<int>, n: int)
    ensures var a := OddOwners(rows, numbers);
            var b := if Numbered(rows, n).Some? then {Numbered(rows, n).value} else {};
            OddOwners(rows, numbers + [n]) == (a - b) + (b - a)
  {
    OwnersAreDistinct(rows);
    hide OwnersOf;
    var owners := OwnersOf(rows);
    var a, c := OddOwners(rows, numbers), OddOwners(rows, numbers + [n]);
    var b := if Numbered(rows, n).Some? then {Numbered(rows, n).value} else {};
    assert multiset(numbers + [n]) == multiset(numbers) + multiset{n};
    forall p ensures p in c <==> p in (a - b) + (b - a) {
      if k :| 0 <= k < |owners| && owners[k] == Some(p) {
        assert p in c <==> IsOdd(multiset(numbers + [n])[k + 1]);
        assert p in a <==> IsOdd(multiset(numbers)[k + 1]);
      }
    }
  }

  /** After any toggles, in any order, a plan is the first one with exactly the owners flipped whose number occurred an
      odd number of times; it is coherent, and every number still names the same owner. */
  lemma {:induction false} TogglesCountParity(plan: Plan, numbers: seq<int>)
    requires IsCoherent(plan)
    ensures ToggleEach(plan, numbers) == FlipAll(plan, OddOwners(plan.rows, numbers))
    ensures IsCoherent(ToggleEach(plan, numbers)) && OwnersOf(ToggleEach(plan, numbers).rows) == OwnersOf(plan.rows)
  {
    hide OwnersOf, OddOwners, IsCoherent, Toggle;
    if numbers == [] {
      NothingIsOdd(plan);
    } else {
      var front, n := numbers[..|numbers| - 1], numbers[|numbers| - 1];
      var before := ToggleEach(plan, front);
      TogglesCountParity(plan, front);
      ToggleFlipsOwner(before, n);
      assert numbers == front + [n];
      OddOwnersStep(plan.rows, front, n);
      hide FlipAll;
      FlipTwice(plan, OddOwners(plan.rows, front),
                if Numbered(plan.rows, n).Some? then {Numbered(plan.rows, n).value} else {});
    }
    FlippingKeepsCoherence(plan, OddOwners(plan.rows, numbers));
    NumbersStayPut(plan, OddOwners(plan.rows, numbers));
  }

  lemma NothingIsOdd(plan: Plan)
    ensures FlipAll(plan, OddOwners(plan.rows, [])) == plan
  {
    assert OddOwners(plan.rows, []) == {};
  }

  /** So toggling a number twice is the identity, and toggles commute. */
  lemma TogglesAreInvolutiveAndCommute(plan: Plan, m: int, n: int)
    requires IsCoherent(plan)
    ensures Toggle(Toggle(plan, m), m) == plan
    ensures Toggle(Toggle(plan, m), n) == Toggle(Toggle(plan, n), m)
  {
    hide Toggle, FlipAll, OddOwners, IsCoherent;
    ToggleTwice(plan, m, m);
    ToggleTwice(plan, m, n);
    ToggleTwice(plan, n, m);
    OddOfTwo(plan.rows, m, n);
    NothingIsOdd(plan);
  }

  lemma OddOfTwo(rows: seq<Row>, m: int, n: int)
    ensures OddOwners(rows, [m, m]) == OddOwners(rows, []) && OddOwners(rows, [m, n]) == OddOwners(rows, [n, m])
  {
    hide OwnersOf;
    assert multiset([m, n]) == multiset([n, m]);
    assert OddOwners(rows, [m, m]) == {};
    assert OddOwners(rows, []) == {};
  }

  lemma ToggleTwice(plan: Plan, m: int, n: int)
    requires IsCoherent(plan)
    ensures Toggle(Toggle(plan, m), n) == FlipAll(plan, OddOwners(plan.rows, [m, n]))
  {
    TogglesCountParity(plan, [m, n]);
    hide Toggle, FlipAll, OddOwners, IsCoherent;
    assert [m, n][..1] == [m] && [m][..0] == [];
    assert ToggleEach(plan, []) == plan;
    assert ToggleEach(plan, [m]) == Toggle(plan, m);
  }

  /** Locked stays locked, and no toggle moves a byte. */
  lemma FlippingKeepsLocksAndBytes(plan: Plan, owners: set<PathKey>)
    ensures forall i :: 0 <= i < |plan.components| ==>
              (plan.components[i].selection == Locked <==> FlipAll(plan, owners).components[i].selection == Locked)
    ensures RowBytes(FlipAll(plan, owners).rows) == RowBytes(plan.rows)
    ensures OwnerBytes(FlipAll(plan, owners).components) == OwnerBytes(plan.components)
  {
    var next := FlipAll(plan, owners);
    SameRowBytes(next.rows, plan.rows);
    SameOwnerBytes(next.components, plan.components);
  }

  lemma {:induction false} SameRowBytes(a: seq<Row>, b: seq<Row>)
    requires |a| == |b| && forall i :: 0 <= i < |a| ==> a[i].physicalBytes == b[i].physicalBytes
    ensures RowBytes(a) == RowBytes(b)
  {
    if a != [] {
      SameRowBytes(a[..|a| - 1], b[..|b| - 1]);
    }
  }

  lemma {:induction false} SameOwnerBytes(a: seq<Component>, b: seq<Component>)
    requires |a| == |b| && forall i :: 0 <= i < |a| ==> a[i].owner == b[i].owner
    ensures OwnerBytes(a) == OwnerBytes(b)
  {
    if a != [] {
      SameOwnerBytes(a[..|a| - 1], b[..|b| - 1]);
    }
  }

  // ----- fresh plans, toggled

  lemma ListedComponent(cs: seq<Component>, ts: seq<Target>, o: PathKey)
    requires AreComponents(cs, ts) && o in ComponentsOf(ts)
    ensures HasComponent(cs, Some(o), ComponentsOf(ts)[o].selection)
  {
    ComponentListed(cs, ts, o);
    var i :| 0 <= i < |cs| && cs[i].key == o;
    IndexOfComponent(cs, ts, i);
    hide ComponentsOf, AreComponents;
  }

  lemma FreshIsCoherent(plan: Plan, rows: seq<Row>, ts: seq<Target>)
    requires DistinctKeys(ts) && RowsMatch(rows, ts) && IsFresh(plan, rows, ts)
    ensures IsCoherent(plan)
  {
    RowsKeepKeys(rows, ts);
    hide ComponentsOf, SortBy, LabelledRows, RowsMatch, AreShown, OwnerOf, Claims, OwnerRowOf, HasComponent;
    var cs := plan.components;
    forall i | 0 <= i < |plan.rows| ensures HasComponent(cs, plan.rows[i].owner, plan.rows[i].selection) {
      ShownRow(plan.rows, rows, ts, i);
      ListedComponent(cs, ts, plan.rows[i].owner.value);
    }
    forall i | 0 <= i < |plan.targets| ensures HasComponent(cs, plan.targets[i].owner, plan.targets[i].selection) {
      assert plan.targets[i] == OwnedTarget(ts, ts[i]);
      OwnersHaveComponents(ts, i);
      ListedComponent(cs, ts, OwnerOf(Claims(ts), ts[i].key));
    }
  }

  /** No selected component equals, contains or lies inside a locked target. */
  ghost predicate IsClearOfLocks(plan: Plan) {
    forall i, k :: 0 <= i < |plan.components| && plan.components[i].selection == Selected
                   && 0 <= k < |plan.targets| && plan.targets[k].policy == Locked ==>
      IsApart(plan.components[i].key, plan.targets[k].key)
  }

  predicate IsApart(a: PathKey, b: PathKey) {
    a != b && !Contains(a, b) && !Contains(b, a)
  }

  /** Toggled on, an unselected component with a locked target below it would put a selection above a lock. */
  ghost predicate TogglesOverLock(plan: Plan, owners: set<PathKey>) {
    exists i, k :: 0 <= i < |plan.components| && plan.components[i].selection == Unselected
      && plan.components[i].key in owners
                   && 0 <= k < |plan.targets| && plan.targets[k].policy == Locked
                   && Contains(plan.components[i].key, plan.targets[k].key)
  }

  lemma UnselectedIsBelowNoLock(ts: seq<Target>, o: PathKey, k: int)
    requires o in ComponentsOf(ts) && ComponentsOf(ts)[o].selection == Unselected && 0 <= k < |ts|
             && ts[k].policy == Locked
    ensures o != ts[k].key && !Contains(ts[k].key, o)
  {
    var i := ComponentOwner(ts, o);
    hide OwnerOf, ComponentsOf;
    SelectionOfComponent(ts, o);
    OwnerIsOutermost(Claims(ts), o);
    assert ts[k].key in Claims(ts);
  }

  /** A component selected after the toggles is clear of a lock, unless it was toggled on above it. */
  lemma ToggledComponentIsApart(plan: Plan, rows: seq<Row>, ts: seq<Target>, owners: set<PathKey>, i: int, k: int)
    requires DistinctKeys(ts) && IsFresh(plan, rows, ts) && !TogglesOverLock(plan, owners)
    requires 0 <= i < |plan.components| && 0 <= k < |plan.targets| && plan.targets[k].policy == Locked
    requires Flip(plan.components[i].selection, plan.components[i].key in owners) == Selected
    ensures IsApart(plan.components[i].key, plan.targets[k].key)
  {
    hide ComponentsOf, SortBy, LabelledRows, AreComponents, TogglesOverLock, OwnerOf, Claims;
    var o, l := plan.components[i].key, plan.targets[k].key;
    assert plan.targets[k] == OwnedTarget(ts, ts[k]);
    IndexOfComponent(plan.components, ts, i);
    if plan.components[i].selection == Unselected {
      UnselectedIsBelowNoLock(ts, o, k);
      OverLock(plan, owners, i, k);
    } else {
      ClearOfLock(ts, o, k);
    }
  }

  lemma OverLock(plan: Plan, owners: set<PathKey>, i: int, k: int)
    requires 0 <= i < |plan.components| && plan.components[i].selection == Unselected
             && plan.components[i].key in owners
    requires 0 <= k < |plan.targets| && plan.targets[k].policy == Locked && !TogglesOverLock(plan, owners)
    ensures !Contains(plan.components[i].key, plan.targets[k].key)
  {
  }

  lemma OverLockIsNotClear(plan: Plan, owners: set<PathKey>)
    requires TogglesOverLock(plan, owners)
    ensures !IsClearOfLocks(FlipAll(plan, owners))
  {
    var next := FlipAll(plan, owners);
    var i, k :| 0 <= i < |plan.components| && plan.components[i].selection == Unselected
      && plan.components[i].key in owners
                && 0 <= k < |plan.targets| && plan.targets[k].policy == Locked
                && Contains(plan.components[i].key, plan.targets[k].key);
    assert next.components[i].selection == Selected && next.targets[k].policy == Locked;
    assert !IsApart(next.components[i].key, next.targets[k].key);
  }

  /** A toggled fresh plan is clear of locks exactly when no component toggled on had a locked target below it. */
  lemma ToggledPlanIsClear(plan: Plan, rows: seq<Row>, ts: seq<Target>, owners: set<PathKey>)
    requires DistinctKeys(ts) && IsFresh(plan, rows, ts)
    ensures IsClearOfLocks(FlipAll(plan, owners)) <==> !TogglesOverLock(plan, owners)
  {
    hide IsFresh, TogglesOverLock, IsApart, DistinctKeys;
    var next := FlipAll(plan, owners);
    if TogglesOverLock(plan, owners) {
      OverLockIsNotClear(plan, owners);
    } else {
      forall i, k | 0 <= i < |next.components| && next.components[i].selection == Selected
                    && 0 <= k < |next.targets| && next.targets[k].policy == Locked
        ensures IsApart(next.components[i].key, next.targets[k].key)
      {
        ToggledComponentIsApart(plan, rows, ts, owners, i, k);
      }
    }
  }

  /** No selected component contains another. */
  ghost predicate IsAntichain(cs: seq<Component>) {
    forall i, j :: 0 <= i < |cs| && 0 <= j < |cs| && cs[i].selection == Selected && cs[j].selection == Selected ==>
      !Contains(cs[i].key, cs[j].key)
  }

  /** An unselected component is toggled on above one that is selected after the toggles. */
  ghost predicate TogglesOverSelection(plan: Plan, owners: set<PathKey>) {
    exists i, j :: IsToggledAbove(plan.components, owners, i, j)
  }

  predicate IsToggledAbove(cs: seq<Component>, owners: set<PathKey>, i: int, j: int) {
    && 0 <= i < |cs| && cs[i].selection == Unselected && cs[i].key in owners
    && 0 <= j < |cs| && Flip(cs[j].selection, cs[j].key in owners) == Selected && Contains(cs[i].key, cs[j].key)
  }

  /** What was selected in a fresh plan contains no component's key. */
  lemma SelectedContainsNoOwner(cs: seq<Component>, ts: seq<Target>, i: int, j: int)
    requires AreComponents(cs, ts) && 0 <= i < |cs| && 0 <= j < |cs| && cs[i].selection == Selected
    ensures !Contains(cs[i].key, cs[j].key)
  {
    IndexOfComponent(cs, ts, i);
    IndexOfComponent(cs, ts, j);
    hide ComponentsOf, AreComponents, Claims;
    SelectedOwnerClaims(ts, cs[i].key);
    var k := ComponentOwner(ts, cs[j].key);
    hide OwnerOf;
    OwnerIsOutermost(Claims(ts), cs[j].key);
  }

  /** After any toggles of a fresh plan no selected component contains another, exactly when none was toggled on above
      one that is selected in the end. */
  lemma ToggledPlanIsAntichain(plan: Plan, rows: seq<Row>, ts: seq<Target>, owners: set<PathKey>)
    requires DistinctKeys(ts) && IsFresh(plan, rows, ts)
    ensures IsAntichain(FlipAll(plan, owners).components) <==> !TogglesOverSelection(plan, owners)
  {
    hide DistinctKeys, SortBy, LabelledRows, ComponentsOf, AreComponents, Contains;
    var cs, next := plan.components, FlipAll(plan, owners).components;
    if i, j :| IsToggledAbove(cs, owners, i, j) {
      assert next[i].selection == Selected && next[j].selection == Selected && Contains(next[i].key, next[j].key);
    }
    if !TogglesOverSelection(plan, owners) {
      forall i, j | 0 <= i < |next| && 0 <= j < |next| && next[i].selection == Selected && next[j].selection == Selected
        ensures !Contains(next[i].key, next[j].key)
      {
        if cs[i].selection == Selected {
          SelectedContainsNoOwner(cs, ts, i, j);
        } else {
          assert !IsToggledAbove(cs, owners, i, j);
        }
      }
    }
  }

  // ----- what the numbers and flips are

  /** Flipping exchanges selected and unselected, and leaves what is locked. */
  lemma FlipMeans(s: Selection)
    ensures Flip(s, false) == s && Flip(Locked, true) == Locked
    ensures Flip(Selected, true) == Unselected && Flip(Unselected, true) == Selected
  {
  }

  /** The first unlocked row of the owner is number i. */
  ghost predicate IsFirstRow(rows: seq<Row>, owner: Option<PathKey>, i: int) {
    && 0 <= i < |rows| && rows[i].selection != Locked && rows[i].owner == owner
    && forall j :: 0 <= j < i ==> rows[j].selection == Locked || rows[j].owner != owner
  }

  lemma {:induction false} OwnersMean(rows: seq<Row>)
    ensures forall i :: 0 <= i < |rows| && rows[i].selection != Locked ==> rows[i].owner in OwnersOf(rows)
  {
    if rows != [] {
      var front := rows[..|rows| - 1];
      OwnersMean(front);
      forall i | 0 <= i < |rows| && rows[i].selection != Locked ensures rows[i].owner in OwnersOf(rows) {
        assert i < |front| ==> rows[i] == front[i];
      }
    }
  }

  /** Numbers follow the rows: an owner whose first unlocked row is earlier has the smaller number. */
  lemma {:induction false} NumbersFollowRows(rows: seq<Row>, k: nat, l: nat, i: int, j: int)
    requires k < |OwnersOf(rows)| && l < |OwnersOf(rows)|
    requires IsFirstRow(rows, OwnersOf(rows)[k], i) && IsFirstRow(rows, OwnersOf(rows)[l], j) && i < j
    ensures k < l
  {
    OwnersAreDistinct(rows);
    var front := rows[..|rows| - 1];
    OwnersMean(front);
    hide IsFirstRow;
    FirstInFront(rows, OwnersOf(rows)[k], i);
    FirstInFront(rows, OwnersOf(rows)[l], j);
    if j < |front| {
      assert OwnersOf(rows)[k] in OwnersOf(front) && OwnersOf(rows)[l] in OwnersOf(front);
      assert k < |OwnersOf(front)| && l < |OwnersOf(front)|;
      NumbersFollowRows(front, k, l, i, j);
    } else {
      assert OwnersOf(rows)[k] in OwnersOf(front);
      NotBefore(front, OwnersOf(rows)[l]);
    }
  }

  lemma FirstInFront(rows: seq<Row>, owner: Option<PathKey>, i: int)
    requires rows != [] && IsFirstRow(rows, owner, i)
    ensures var front := rows[..|rows| - 1];
            if i < |front| then IsFirstRow(front, owner, i) && front[i].owner == owner && front[i].selection != Locked
            else i == |front| &&
                 forall j :: 0 <= j < |front| ==> front[j].selection == Locked || front[j].owner != owner
    ensures 0 <= i < |rows|
  {
  }

  lemma NotBefore(rows: seq<Row>, owner: Option<PathKey>)
    requires forall j :: 0 <= j < |rows| ==> rows[j].selection == Locked || rows[j].owner != owner
    ensures owner !in OwnersOf(rows)
  {
    forall k | 0 <= k < |OwnersOf(rows)| ensures OwnersOf(rows)[k] != owner {
      OwnerHasRow(rows, k);
    }
  }
}
