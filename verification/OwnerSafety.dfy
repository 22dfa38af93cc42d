/** Judging worktree rows by their physical owner before they are collapsed. */
module OwnerSafety {
  import opened Wrappers
  import opened Ordering
  import opened PathKeys
  import opened CleanupTargets
  import opened CleanupTargetTheorems

  /** Some inventory row at the path is an active worktree. */
  ghost predicate HasActiveRow(inventory: seq<Item>, p: PathKey) {
    exists i :: 0 <= i < |inventory| && inventory[i].path == Some(p) && IsActiveWorktree(inventory[i])
  }

  method ActiveOwners(inventory: seq<Item>) returns (owners: set<PathKey>)
    ensures forall p :: p in owners <==> HasActiveRow(inventory, p)
  {
    owners := {};
    for i := 0 to |inventory|
      invariant forall p :: p in owners <==> exists j :: 0 <= j < i && inventory[j].path == Some(p)
                                                         && IsActiveWorktree(inventory[j])
    {
      if IsActiveWorktree(inventory[i]) && inventory[i].path.Some? {
        owners := owners + {inventory[i].path.value};
      }
    }
  }

  /** The target is a worktree at a path with an active row. */
  ghost predicate IsGuarded(inventory: seq<Item>, target: Item) {
    target.isWorktree && target.path.Some? && HasActiveRow(inventory, target.path.value)
  }

  /** What becomes of each target: guarded ones are dropped, or forced active when active ones are included. */
  ghost function Safe(inventory: seq<Item>, targets: seq<Item>, includeActive: bool): seq<Item> {
    if targets == [] then []
    else
      var last := targets[|targets| - 1];
      Safe(inventory, targets[..|targets| - 1], includeActive)
      + if !IsGuarded(inventory, last) then [last] else if includeActive then [last.(status := ACTIVE)] else []
  }

  /** The keys of the inventory rows that are protected for their owner's activity; none when active ones are
      included. */
  method Protections(inventory: seq<Item>, activeOwners: set<PathKey>, includeActive: bool, keyOf: Item -> string)
    returns (protections: set<string>)
    requires forall p :: p in activeOwners <==> HasActiveRow(inventory, p)
    ensures forall key :: key in protections <==> !includeActive && IsProtected(inventory, inventory, keyOf, key)
  {
    hide HasActiveRow, IsProtected;
    protections := {};
    NothingProtected(inventory, keyOf);
    if includeActive {
      return;
    }
    for i := 0 to |inventory|
      invariant forall key :: key in protections <==> IsProtected(inventory, inventory[..i], keyOf, key)
    {
      var item := inventory[i];
      assert inventory[..i + 1] == inventory[..i] + [item];
      ProtectedStep(inventory, inventory[..i], item, keyOf);
      if !item.isWorktree {
        continue;
      }
      if item.path.Some? && item.path.value in activeOwners {
        protections := protections + {keyOf(item)};
      }
    }
    assert inventory[..|inventory|] == inventory;
  }

  lemma NothingProtected(inventory: seq<Item>, keyOf: Item -> string)
    ensures forall key :: !IsProtected(inventory, [], keyOf, key)
  {
  }

  lemma ProtectedStep(inventory: seq<Item>, items: seq<Item>, item: Item, keyOf: Item -> string)
    ensures forall key :: IsProtected(inventory, items + [item], keyOf, key) <==>
              IsProtected(inventory, items, keyOf, key) || (IsGuarded(inventory, item) && keyOf(item) == key)
  {
    hide IsGuarded;
    forall key
      ensures IsProtected(inventory, items + [item], keyOf, key) <==>
                IsProtected(inventory, items, keyOf, key) || (IsGuarded(inventory, item) && keyOf(item) == key)
    {
      if x :| x in items && IsGuarded(inventory, x) && keyOf(x) == key {
        assert x in items + [item];
      }
      assert item in items + [item];
    }
  }

  /** The key is that of a guarded row among the items. */
  ghost predicate IsProtected(inventory: seq<Item>, items: seq<Item>, keyOf: Item -> string, key: string) {
    exists item :: item in items && IsGuarded(inventory, item) && keyOf(item) == key
  }

  method ApplyPhysicalOwnerSafety(inventory: seq<Item>, targets: seq<Item>, includeActive: bool, keyOf: Item -> string)
    returns (filtered: seq<Item>, protections: set<string>)
    ensures filtered == Safe(inventory, targets, includeActive)
    ensures forall key :: key in protections <==> !includeActive && IsProtected(inventory, inventory, keyOf, key)
  {
    hide HasActiveRow, IsProtected;
    var activeOwners := ActiveOwners(inventory);
    protections := Protections(inventory, activeOwners, includeActive, keyOf);
    filtered := [];
    for i := 0 to |targets|
      invariant filtered == Safe(inventory, targets[..i], includeActive)
    {
      var target := targets[i];
      assert targets[..i + 1][..i] == targets[..i];
      if !target.isWorktree {
        filtered := filtered + [target];
        continue;
      }
      if target.path == None || target.path.value !in activeOwners {
        filtered := filtered + [target];
        continue;
      }
      if !includeActive {
        continue;
      }
      filtered := filtered + [target.(status := ACTIVE)];
    }
    assert targets[..|targets|] == targets;
  }

  /** Of the rows at an owner with an active row, the worktrees that remain are all active, and none remains unless
      active ones are included. */
  lemma {:induction false} GuardedRows(inventory: seq<Item>, targets: seq<Item>, includeActive: bool, p: PathKey,
                                       i: int)
    requires HasActiveRow(inventory, p)
    requires var s := Safe(inventory, targets, includeActive); 0 <= i < |s| && s[i].path == Some(p) && s[i].isWorktree
    ensures includeActive && IsActiveWorktree(Safe(inventory, targets, includeActive)[i])
  {
    hide HasActiveRow;
    var front := targets[..|targets| - 1];
    if i < |Safe(inventory, front, includeActive)| {
      GuardedRows(inventory, front, includeActive, p, i);
    }
  }

  /** Rows whose worktrees are all active are collapsed to an item that is active when it is a worktree. */
  lemma {:induction false} ActiveRowsStayActive(rows: seq<Item>, p: PathKey)
    requires p in Grouped(rows)
    requires forall i :: 0 <= i < |rows| && rows[i].path == Some(p) && rows[i].isWorktree ==> IsActiveWorktree(rows[i])
    ensures Grouped(rows)[p].item.isWorktree ==> IsActiveWorktree(Grouped(rows)[p].item)
  {
    GroupStep(rows, p);
    var front, last := rows[..|rows| - 1], rows[|rows| - 1];
    hide Grouped;
    if p in Grouped(front) {
      ActiveRowsStayActive(front, p);
    }
  }

  /** Judged by their owner first, rows lose no activity when they are collapsed: where the inventory has an active row,
      a worktree survives as an active one, or, when active ones are not included, no worktree survives. */
  lemma SafetyKeepsActivity(inventory: seq<Item>, targets: seq<Item>, includeActive: bool, out: seq<Item>, i: int)
    requires IsNormalization(Safe(inventory, targets, includeActive), out) && 0 <= i < |out|
    requires out[i].isWorktree && HasActiveRow(inventory, out[i].path.value)
    ensures includeActive && IsActiveWorktree(out[i])
  {
    hide Grouped, HasActiveRow;
    var rows, p := Safe(inventory, targets, includeActive), out[i].path.value;
    forall j | 0 <= j < |rows| && rows[j].path == Some(p) && rows[j].isWorktree
      ensures includeActive && IsActiveWorktree(rows[j])
    {
      GuardedRows(inventory, targets, includeActive, p, j);
    }
    ActiveRowsStayActive(rows, p);
    if !includeActive {
      NoWorktreeRow(rows, p);
    }
  }

  lemma {:induction false} NoWorktreeRow(rows: seq<Item>, p: PathKey)
    requires p in Grouped(rows) && forall i :: 0 <= i < |rows| && rows[i].path == Some(p) ==> !rows[i].isWorktree
    ensures !Grouped(rows)[p].item.isWorktree
  {
    GroupStep(rows, p);
    var front := rows[..|rows| - 1];
    hide Grouped;
    if p in Grouped(front) {
      NoWorktreeRow(front, p);
    }
  }

  /** Some inventory row at the target's path is an active worktree, and the target is a worktree itself. */
  ghost predicate IsAtActive(inventory: seq<Item>, target: Item) {
    target.isWorktree && target.path.Some?
    && exists i :: 0 <= i < |inventory| && inventory[i].path == target.path
                   && inventory[i].isWorktree && inventory[i].status == "active"
  }

  /** Targets are judged one by one: at an active owner a worktree is dropped, or made active when active ones are
      included; every other target stays as it is. */
  lemma {:induction false} SafeMeans(inventory: seq<Item>, a: seq<Item>, b: seq<Item>, includeActive: bool)
    ensures Safe(inventory, a + b, includeActive) ==
            Safe(inventory, a, includeActive) + Safe(inventory, b, includeActive)
    ensures forall t :: Safe(inventory, [t], includeActive) ==
                        if !IsAtActive(inventory, t) then [t]
                        else if includeActive then [t.(status := "active")] else []
  {
    hide IsGuarded;
    forall t
      ensures Safe(inventory, [t], includeActive) ==
                if !IsAtActive(inventory, t) then [t]
                else if includeActive then [t.(status := "active")] else []
    {
      assert [t][..0] == [] && Safe(inventory, [], includeActive) == [];
      GuardedMeans(inventory, t);
    }
    LastOfBoth(a, b);
    if b != [] {
      SafeMeans(inventory, a, b[..|b| - 1], includeActive);
    }
  }

  lemma GuardedMeans(inventory: seq<Item>, t: Item)
    ensures IsGuarded(inventory, t) <==> IsAtActive(inventory, t)
  {
  }
}
