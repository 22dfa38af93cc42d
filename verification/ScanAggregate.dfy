/** Folding provider results into the inventory, or into nothing once the scan is cancelled. */
module ScanAggregate {
  import opened Wrappers
  import opened Ordering
  import opened Dispatch

  /** A row a provider found; category is empty when the provider's own applies. */
  datatype Item = Item(path: string, tool: string, category: string, size: int, strippable: int)

  datatype Summary = Summary(count: int, size: int, strippable: int)

  const NONE_YET := Summary(0, 0, 0)

  /** The rows kept, how many the user excluded, the providers that failed, and the sums of the rows in all, by category
      and by tool. */
  datatype Inventory = Inventory(items: seq<Item>, excluded: nat, failed: seq<int>, total: Summary,
                                 byCategory: map<string, Summary>, byTool: map<string, Summary>)

  /** What aggregation meets: what each provider found, its name, when the caller's context ends, what the ownership
      check makes of a row (None drops it), which rows the user excludes, the category of a tool, and whether retention
      succeeds. */
  datatype Scan = Scan(items: int -> seq<Item>, name: int -> string, ended: int -> bool, owned: Item -> Option<Item>,
                       excluded: Item -> bool, category: string -> string, retained: bool)

  // ----- what was found, kept and failed

  function FoundBy(messages: seq<Message>, s: Scan): seq<Item> {
    if messages == [] then []
    else
      var last := messages[|messages| - 1];
      FoundBy(messages[..|messages| - 1], s) + if last.outcome == Found then s.items(last.provider) else []
  }

  function FailedBy(messages: seq<Message>): seq<int> {
    if messages == [] then []
    else
      var last := messages[|messages| - 1];
      FailedBy(messages[..|messages| - 1]) + if last.outcome == OtherError then [last.provider] else []
  }

  function Owned(items: seq<Item>, s: Scan): seq<Item> {
    if items == [] then []
    else
      Owned(items[..|items| - 1], s)
      + match s.owned(items[|items| - 1])
        case None => []
        case Some(item) => [item]
  }

  function Kept(items: seq<Item>, s: Scan): seq<Item> {
    if items == [] then []
    else Kept(items[..|items| - 1], s) + if s.excluded(items[|items| - 1]) then [] else [items[|items| - 1]]
  }

  /** The rows of the inventory, in the order they came. */
  function Rows(messages: seq<Message>, s: Scan): seq<Item> {
    Kept(Owned(FoundBy(messages, s), s), s)
  }

  // ----- sums

  function Add(sum: Summary, item: Item): Summary {
    Summary(sum.count + 1, sum.size + item.size, sum.strippable + item.strippable)
  }

  function Plus(a: Summary, b: Summary): Summary {
    Summary(a.count + b.count, a.size + b.size, a.strippable + b.strippable)
  }

  function SumAll(items: seq<Item>): Summary {
    if items == [] then NONE_YET else Add(SumAll(items[..|items| - 1]), items[|items| - 1])
  }

  /** The sum of the rows whose key is among the keys. */
  function SumOf(items: seq<Item>, key: Item -> string, keys: set<string>): Summary {
    if items == [] then NONE_YET
    else
      var front := SumOf(items[..|items| - 1], key, keys);
      if key(items[|items| - 1]) in keys then Add(front, items[|items| - 1]) else front
  }

  /** Every key of a row is there with the sum of its rows. */
  ghost predicate Summarizes(m: map<string, Summary>, items: seq<Item>, key: Item -> string) {
    && (forall k :: k in m <==> exists item :: item in items && key(item) == k)
    && forall k :: k in m ==> m[k] == SumOf(items, key, {k})
  }

  function CategoryKey(s: Scan): Item -> string {
    (item: Item) => if item.category != "" then item.category else s.category(item.tool)
  }

  function ToolKey(item: Item): string {
    item.tool
  }

  function WithItem(m: map<string, Summary>, k: string, item: Item): map<string, Summary> {
    m[k := Add(if k in m then m[k] else NONE_YET, item)]
  }

  lemma {:induction false} SumOfNone(items: seq<Item>, key: Item -> string, keys: set<string>)
    requires forall item :: item in items ==> key(item) !in keys
    ensures SumOf(items, key, keys) == NONE_YET
  {
    if items != [] {
      assert items[|items| - 1] in items;
      SumOfNone(items[..|items| - 1], key, keys);
    }
  }

  lemma SummarizesMore(m: map<string, Summary>, items: seq<Item>, key: Item -> string, item: Item)
    requires Summarizes(m, items, key)
    ensures Summarizes(WithItem(m, key(item), item), items + [item], key)
  {
    hide Add;
    var now, more := WithItem(m, key(item), item), items + [item];
    assert more[..|items|] == items;
    forall k ensures k in now <==> exists x :: x in more && key(x) == k {
      if k == key(item) {
        assert item in more;
      } else if x :| x in items && key(x) == k {
        assert x in more;
      }
    }
    forall k | k in now ensures now[k] == SumOf(more, key, {k}) {
      if k !in m {
        SumOfNone(items, key, {k});
      }
    }
  }

  lemma {:induction false} SumsAdd(items: seq<Item>, key: Item -> string, keys: set<string>, k: string)
    requires k in keys
    ensures SumOf(items, key, keys) == Plus(SumOf(items, key, {k}), SumOf(items, key, keys - {k}))
  {
    if items != [] {
      SumsAdd(items[..|items| - 1], key, keys, k);
    }
  }

  lemma {:induction false} SumOfEverything(items: seq<Item>, key: Item -> string, keys: set<string>)
    requires forall item :: item in items ==> key(item) in keys
    ensures SumOf(items, key, keys) == SumAll(items)
  {
    if items != [] {
      assert items[|items| - 1] in items;
      SumOfEverything(items[..|items| - 1], key, keys);
    }
  }

  ghost function SumOver(m: map<string, Summary>, keys: set<string>): Summary {
    if keys == {} then NONE_YET
    else
      var k :| k in keys;
      Plus(if k in m then m[k] else NONE_YET, SumOver(m, keys - {k}))
  }

  lemma {:induction false} SummariesAdd(m: map<string, Summary>, items: seq<Item>, key: Item -> string,
                                        keys: set<string>)
    requires Summarizes(m, items, key) && keys <= m.Keys
    ensures SumOver(m, keys) == SumOf(items, key, keys)
    decreases |keys|
  {
    hide SumOf, Plus, Add;
    if keys == {} {
      SumOfNone(items, key, {});
    } else {
      var k :| k in keys && SumOver(m, keys) == Plus(if k in m then m[k] else NONE_YET, SumOver(m, keys - {k}));
      SummariesAdd(m, items, key, keys - {k});
      SumsAdd(items, key, keys, k);
    }
  }

  /** The summaries of all keys add up to the sum of all rows. */
  lemma SummariesPartition(m: map<string, Summary>, items: seq<Item>, key: Item -> string)
    requires Summarizes(m, items, key)
    ensures SumOver(m, m.Keys) == SumAll(items)
  {
    hide SumOf, SumAll;
    SummariesAdd(m, items, key, m.Keys);
    SumOfEverything(items, key, m.Keys);
  }

  // ----- what the parts mean

  /** Sums count the rows and add their sizes and strippable sizes, each for itself. */
  lemma {:induction false} SumsAreSums(a: seq<Item>, b: seq<Item>)
    ensures SumAll(a + b).count == SumAll(a).count + SumAll(b).count
    ensures SumAll(a + b).size == SumAll(a).size + SumAll(b).size
    ensures SumAll(a + b).strippable == SumAll(a).strippable + SumAll(b).strippable
    ensures SumAll([]) == Summary(0, 0, 0) && forall x :: SumAll([x]) == Summary(1, x.size, x.strippable)
  {
    assert forall x :: SumAll([x][..0]) == NONE_YET;
    LastOfBoth(a, b);
    if b != [] {
      SumsAreSums(a, b[..|b| - 1]);
    }
  }

  /** The rows with a key. */
  ghost function WithKey(items: seq<Item>, key: Item -> string, k: string): (r: seq<Item>)
    ensures forall x :: multiset(r)[x] == if key(x) == k then multiset(items)[x] else 0
  {
    if items == [] then []
    else
      var front, last := items[..|items| - 1], items[|items| - 1];
      assert items == front + [last];
      WithKey(front, key, k) + if key(last) == k then [last] else []
  }

  /** The sum for a key is the sum of the rows with that key. */
  lemma {:induction false} SumOfOneKey(items: seq<Item>, key: Item -> string, k: string)
    ensures SumOf(items, key, {k}) == SumAll(WithKey(items, key, k))
  {
    if items != [] {
      var front, last := items[..|items| - 1], items[|items| - 1];
      SumOfOneKey(front, key, k);
      SumsAreSums(WithKey(front, key, k), [last]);
      assert WithKey(front, key, k) + [] == WithKey(front, key, k);
    }
  }

  /** A row belongs to its own category, or to its tool's when it names none; and to its tool. */
  lemma KeysMean(s: Scan, item: Item)
    ensures item.category != "" ==> CategoryKey(s)(item) == item.category
    ensures item.category == "" ==> CategoryKey(s)(item) == s.category(item.tool)
    ensures ToolKey(item) == item.tool
  {
  }

  /** Rows are found message by message, from the providers that found something; owned row by row, as the ownership
      check returns them; and kept unless excluded. */
  lemma RowsMean(m: Message, x: Item, s: Scan)
    ensures FoundBy([m], s) == if m.outcome == Found then s.items(m.provider) else []
    ensures FailedBy([m]) == if m.outcome == OtherError then [m.provider] else []
    ensures Owned([x], s) == if s.owned(x).Some? then [s.owned(x).value] else []
    ensures Kept([x], s) == if s.excluded(x) then [] else [x]
    ensures FoundBy([], s) == [] && FailedBy([]) == [] && Owned([], s) == [] && Kept([], s) == []
  {
    assert [m][..0] == [] && [x][..0] == [];
  }

  lemma {:induction false} RowsAreConcatenated(a: seq<Item>, b: seq<Item>, s: Scan)
    ensures Owned(a + b, s) == Owned(a, s) + Owned(b, s)
    ensures Kept(a + b, s) == Kept(a, s) + Kept(b, s)
  {
    LastOfBoth(a, b);
    if b != [] {
      RowsAreConcatenated(a, b[..|b| - 1], s);
    }
  }

  lemma {:induction false} ResultsAreConcatenated(a: seq<Message>, b: seq<Message>, s: Scan)
    ensures FoundBy(a + b, s) == FoundBy(a, s) + FoundBy(b, s)
    ensures FailedBy(a + b) == FailedBy(a) + FailedBy(b)
  {
    LastOfBoth(a, b);
    if b != [] {
      ResultsAreConcatenated(a, b[..|b| - 1], s);
    }
  }

  // ----- aggregation

  /** The caller's context never ends before the n-th look at it, and no provider reports a context error. */
  ghost predicate IsUndisturbed(messages: seq<Message>, ended: int -> bool, n: int) {
    && (forall k :: 0 <= k < |messages| ==> messages[k].outcome != ContextError)
    && (forall k :: 0 <= k < n ==> !ended(k))
  }

  ghost predicate IsInventory(inventory: Inventory, messages: seq<Message>, s: Scan) {
    var rows := Rows(messages, s);
    && multiset(inventory.items) == multiset(rows)
    && (forall i, j :: 0 <= i < j < |inventory.items| ==> inventory.items[i].size >= inventory.items[j].size)
    && inventory.excluded + |rows| == |Owned(FoundBy(messages, s), s)|
    && multiset(inventory.failed) == multiset(FailedBy(messages))
    && (forall i, j :: 0 <= i < j < |inventory.failed| ==>
          !LexLess(s.name(inventory.failed[j]), s.name(inventory.failed[i])))
    && inventory.total == SumAll(rows)
    && Summarizes(inventory.byCategory, rows, CategoryKey(s)) && Summarizes(inventory.byTool, rows, ToolKey)
  }

  /** An inventory is returned exactly when nothing was cancelled at any look and retention succeeded; it holds what
      every provider found, was owned and was not excluded, by falling size, with its sums, and names the providers that
      failed, in the order of their names. The context is looked at after each result, after the last, after the
      ownership check, after sorting, and after retention. */
  method AggregateProviderResults(messages: seq<Message>, s: Scan) returns (r: Option<Inventory>)
    ensures r.Some? <==> IsUndisturbed(messages, s.ended, |messages| + 4) && s.retained
    ensures r.Some? ==> IsInventory(r.value, messages, s)
  {
    hide SumAll, SumOf, Summarizes, SortBy, Owned, Kept, FoundBy, FailedBy, IsUndisturbed;
    var items, failed, cancelled := FoldResults(messages, s);
    cancelled := cancelled || s.ended(|messages|);
    LooksAreInTurn(messages, s.ended);
    if cancelled {
      return None;
    }
    var errors := SortBy(failed, ByName(s));
    SortedByName(failed, s);
    var owned := RequireOwnership(items, s);
    if s.ended(|messages| + 1) {
      return None;
    }
    var kept, excluded := ApplyExclusions(owned, s);
    var total, byCategory, byTool := FillTotals(kept, s);
    var sorted := SortBy(kept, LargerFirst);
    SortedBySize(kept);
    if s.ended(|messages| + 2) {
      return None;
    }
    if !s.retained {
      return None;
    }
    if s.ended(|messages| + 3) {
      return None;
    }
    return Some(Inventory(sorted, excluded, errors, total, byCategory, byTool));
  }

  lemma LooksAreInTurn(messages: seq<Message>, ended: int -> bool)
    ensures IsUndisturbed(messages, ended, |messages| + 4) <==>
            && IsUndisturbed(messages, ended, |messages|) && !ended(|messages|) && !ended(|messages| + 1)
            && !ended(|messages| + 2) && !ended(|messages| + 3)
  {
  }

  /** The results in turn; the context is looked at after each. */
  method FoldResults(messages: seq<Message>, s: Scan) returns (items: seq<Item>, failed: seq<int>, cancelled: bool)
    ensures items == FoundBy(messages, s) && failed == FailedBy(messages)
    ensures cancelled <==> !IsUndisturbed(messages, s.ended, |messages|)
  {
    items, failed, cancelled := [], [], false;
    for k := 0 to |messages|
      invariant items == FoundBy(messages[..k], s) && failed == FailedBy(messages[..k])
      invariant cancelled <==> !IsUndisturbed(messages[..k], s.ended, k)
    {
      assert messages[..k + 1] == messages[..k] + [messages[k]];
      var m := messages[k];
      match m.outcome {
        case ContextError =>
          cancelled := true;
          assert messages[..k + 1][k].outcome == ContextError;
        case OtherError => failed := failed + [m.provider];
        case Found => items := items + s.items(m.provider);
      }
      cancelled := cancelled || s.ended(k);
    }
    assert messages[..|messages|] == messages;
  }

  function ByName(s: Scan): (int, int) -> bool {
    (a, b) => LexLess(s.name(a), s.name(b))
  }

  lemma SortedByName(failed: seq<int>, s: Scan)
    ensures var sorted := SortBy(failed, ByName(s));
            multiset(sorted) == multiset(failed)
            && forall i, j :: 0 <= i < j < |sorted| ==> !LexLess(s.name(sorted[j]), s.name(sorted[i]))
  {
    LexIsWeakOrder();
    hide LexLess;
    assert WeakOrder(ByName(s));
    SortSorts(failed, ByName(s));
    SortKeeps(failed, ByName(s));
    var sorted := SortBy(failed, ByName(s));
    forall i, j | 0 <= i < j < |sorted| ensures !LexLess(s.name(sorted[j]), s.name(sorted[i])) {
      assert !ByName(s)(sorted[j], sorted[i]);
    }
  }

  predicate LargerFirst(a: Item, b: Item) {
    a.size > b.size
  }

  lemma SortedBySize(items: seq<Item>)
    ensures var sorted := SortBy(items, LargerFirst);
            multiset(sorted) == multiset(items)
            && forall i, j :: 0 <= i < j < |sorted| ==> sorted[i].size >= sorted[j].size
  {
    var rank := (item: Item) => -item.size;
    SortOrders(items, LargerFirst, rank);
    SortKeeps(items, LargerFirst);
    var sorted := SortBy(items, LargerFirst);
    forall i, j | 0 <= i < j < |sorted| ensures sorted[i].size >= sorted[j].size {
      assert rank(sorted[i]) <= rank(sorted[j]);
    }
  }

  method RequireOwnership(items: seq<Item>, s: Scan) returns (owned: seq<Item>)
    ensures owned == Owned(items, s)
  {
    owned := [];
    for i := 0 to |items|
      invariant owned == Owned(items[..i], s)
    {
      assert items[..i + 1][..i] == items[..i];
      match s.owned(items[i]) {
        case None =>
        case Some(item) => owned := owned + [item];
      }
    }
    assert items[..|items|] == items;
  }

  method ApplyExclusions(items: seq<Item>, s: Scan) returns (kept: seq<Item>, excluded: nat)
    ensures kept == Kept(items, s) && excluded + |kept| == |items|
  {
    kept, excluded := [], 0;
    for i := 0 to |items|
      invariant kept == Kept(items[..i], s) && excluded + |kept| == i
    {
      assert items[..i + 1][..i] == items[..i];
      if s.excluded(items[i]) {
        excluded := excluded + 1;
        continue;
      }
      kept := kept + [items[i]];
    }
    assert items[..|items|] == items;
  }

  method FillTotals(items: seq<Item>, s: Scan)
    returns (total: Summary, byCategory: map<string, Summary>, byTool: map<string, Summary>)
    ensures total == SumAll(items)
    ensures Summarizes(byCategory, items, CategoryKey(s)) && Summarizes(byTool, items, ToolKey)
  {
    hide Summarizes, WithItem;
    total, byCategory, byTool := NONE_YET, map[], map[];
    NothingSummarized(s);
    for i := 0 to |items|
      invariant total == SumAll(items[..i])
      invariant Summarizes(byCategory, items[..i], CategoryKey(s)) && Summarizes(byTool, items[..i], ToolKey)
    {
      var item := items[i];
      assert items[..i + 1] == items[..i] + [item];
      SummarizesMore(byCategory, items[..i], CategoryKey(s), item);
      SummarizesMore(byTool, items[..i], ToolKey, item);
      total := Add(total, item);
      byCategory := WithItem(byCategory, CategoryKey(s)(item), item);
      byTool := WithItem(byTool, item.tool, item);
    }
    assert items[..|items|] == items;
  }

  lemma NothingSummarized(s: Scan)
    ensures Summarizes(map[], [], CategoryKey(s)) && Summarizes(map[], [], ToolKey)
  {
  }

  /** The sums by category and the sums by tool each add up to the sum of all rows shown, and no row is lost on the
      way: those dropped as not owned, excluded and shown make up all that was found. */
  lemma InventoryAddsUp(inventory: Inventory, messages: seq<Message>, s: Scan)
    requires IsInventory(inventory, messages, s)
    ensures SumOver(inventory.byCategory, inventory.byCategory.Keys) == inventory.total
    ensures SumOver(inventory.byTool, inventory.byTool.Keys) == inventory.total
    ensures inventory.total.count == |inventory.items|
    ensures inventory.excluded + |inventory.items| <= |FoundBy(messages, s)|
    ensures (forall item :: item in FoundBy(messages, s) ==> s.owned(item) != None) ==>
              inventory.excluded + |inventory.items| == |FoundBy(messages, s)|
  {
    hide SumAll, Summarizes;
    var rows := Rows(messages, s);
    assert |inventory.items| == |multiset(inventory.items)| == |multiset(rows)| == |rows|;
    SummariesPartition(inventory.byCategory, rows, CategoryKey(s));
    SummariesPartition(inventory.byTool, rows, ToolKey);
    CountOfAll(rows);
    OwnedAreFewer(FoundBy(messages, s), s);
  }

  lemma {:induction false} CountOfAll(items: seq<Item>)
    ensures SumAll(items).count == |items|
  {
    if items != [] {
      CountOfAll(items[..|items| - 1]);
    }
  }

  lemma {:induction false} OwnedAreFewer(items: seq<Item>, s: Scan)
    ensures |Owned(items, s)| <= |items|
    ensures (forall item :: item in items ==> s.owned(item) != None) ==> |Owned(items, s)| == |items|
  {
    if items != [] {
      assert items[|items| - 1] in items;
      OwnedAreFewer(items[..|items| - 1], s);
    }
  }

  // ----- from dispatch to inventory

  lemma {:induction false} FailedAreNamed(messages: seq<Message>)
    ensures forall p :: p in FailedBy(messages) <==> Message(p, OtherError) in messages
  {
    if messages != [] {
      var front := messages[..|messages| - 1];
      FailedAreNamed(front);
      assert messages == front + [messages[|messages| - 1]];
    }
  }

  lemma {:induction false} FoundAreKept(messages: seq<Message>, s: Scan, p: int)
    requires Message(p, Found) in messages
    ensures forall x :: x in s.items(p) ==> x in FoundBy(messages, s)
  {
    var front := messages[..|messages| - 1];
    assert messages == front + [messages[|messages| - 1]];
    if Message(p, Found) in front {
      FoundAreKept(front, s, p);
    }
  }

  lemma {:induction false} OwnedAreThere(items: seq<Item>, s: Scan, x: Item)
    requires x in items && s.owned(x).Some?
    ensures s.owned(x).value in Owned(items, s)
  {
    var front := items[..|items| - 1];
    assert items == front + [items[|items| - 1]];
    if x in front {
      OwnedAreThere(front, s, x);
    }
  }

  lemma {:induction false} KeptAreThere(items: seq<Item>, s: Scan, x: Item)
    ensures x in Kept(items, s) <==> x in items && !s.excluded(x)
  {
    if items != [] {
      var front := items[..|items| - 1];
      assert items == front + [items[|items| - 1]];
      KeptAreThere(front, s, x);
    }
  }

  /** The row is dropped as not owned, excluded, or in the inventory. */
  ghost predicate IsAccountedFor(inventory: Inventory, s: Scan, x: Item) {
    s.owned(x) == None || s.excluded(s.owned(x).value) || s.owned(x).value in inventory.items
  }

  /** From dispatch to inventory: when a finished run's results make an inventory, every scan that ended found something
      that is accounted for, or failed with its provider named, and no scan was cancelled. */
  lemma InventoryIsComplete(n: nat, steps: seq<Step>, states: seq<State>, k: nat, s: Scan, inventory: Inventory,
                            j: nat, i: int, outcome: Outcome)
    requires IsRun(n, steps, states) && j < k < |states| && Decides(steps[j], i, outcome) && states[k].finished
    requires IsUndisturbed(states[k].received, s.ended, n + 4) && IsInventory(inventory, states[k].received, s)
    ensures outcome != ContextError
    ensures outcome == Found ==> forall x :: x in s.items(i) ==> IsAccountedFor(inventory, s, x)
    ensures outcome == OtherError ==> i in inventory.failed
  {
    hide IsRun, SumAll, Summarizes;
    var messages := states[k].received;
    FinishedRunHasReport(n, steps, states, k, j, i, outcome);
    FailedAreNamed(messages);
    SameMembers(inventory.failed, FailedBy(messages));
    if outcome == Found {
      FoundAreKept(messages, s, i);
      SameMembers(inventory.items, Rows(messages, s));
      forall x | x in s.items(i) && s.owned(x).Some? && !s.excluded(s.owned(x).value)
        ensures s.owned(x).value in inventory.items
      {
        OwnedAreThere(FoundBy(messages, s), s, x);
        KeptAreThere(Owned(FoundBy(messages, s), s), s, s.owned(x).value);
      }
    }
  }

  lemma SameMembers<T>(a: seq<T>, b: seq<T>)
    requires multiset(a) == multiset(b)
    ensures forall x :: x in a <==> x in b
  {
    forall x ensures x in a <==> x in b {
      assert x in a <==> x in multiset(a);
      assert x in b <==> x in multiset(b);
    }
  }
}
