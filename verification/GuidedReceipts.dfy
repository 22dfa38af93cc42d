/** The guided confirmation loop, and the receipt that must account for every prepared target exactly once. */
module GuidedReceipts {
  import opened Wrappers
  import opened Execution
  import opened Receipts

  /** A prepared target bound to its receipt line before anything is touched. */
  datatype Bound = Bound(key: string, id: int)

  datatype Disposition = NoDisposition | Declined | CancelledEarly

  function IndexOf(prepared: seq<Bound>, key: string): (i: int)
    ensures -1 <= i < |prepared| && (i >= 0 ==> prepared[i].key == key)
    ensures i == -1 ==> forall j :: 0 <= j < |prepared| ==> prepared[j].key != key
  {
    if prepared == [] then -1
    else if IndexOf(prepared[..|prepared| - 1], key) >= 0 then IndexOf(prepared[..|prepared| - 1], key)
    else if prepared[|prepared| - 1].key == key then |prepared| - 1
    else -1
  }

  /** Bound targets have distinct keys, none empty, and distinct lines. */
  ghost predicate AreBound(prepared: seq<Bound>, lines: int) {
    && (forall i :: 0 <= i < |prepared| ==> prepared[i].key != "" && 0 <= prepared[i].id < lines)
    && (forall i, j :: 0 <= i < j < |prepared| ==>
        prepared[i].key != prepared[j].key && prepared[i].id != prepared[j].id)
  }

  /** One of the bound targets has the line. */
  ghost predicate IsBoundTo(bound: seq<Bound>, line: int) {
    exists k :: 0 <= k < |bound| && bound[k].id == line
  }

  /** A line whose target was left alone: skipped when it was declined, requested and cancelled otherwise. */
  function ObservedLine(line: Line, d: Disposition): Line {
    match d
    case NoDisposition => line
    case Declined => line.(state := Skipped, requested := false)
    case CancelledEarly => line.(state := Cancelled, requested := true)
  }

  /** Observed targets show it on their lines, and no other line has changed. */
  ghost predicate AreObserved(prepared: seq<Bound>, dispositions: seq<Disposition>, was: seq<Line>, now: seq<Line>) {
    && |now| == |was| && |dispositions| == |prepared|
    && (forall k :: 0 <= k < |prepared| && 0 <= prepared[k].id < |was| ==>
          now[prepared[k].id] == ObservedLine(was[prepared[k].id], dispositions[k]))
    && (forall j :: 0 <= j < |was| && !IsBoundTo(prepared, j) ==> now[j] == was[j])
  }

  lemma ObservedStep(prepared: seq<Bound>, dispositions: seq<Disposition>, was: seq<Line>, now: seq<Line>, k: int,
                     d: Disposition)
    requires AreBound(prepared, |was|) && AreObserved(prepared, dispositions, was, now)
    requires 0 <= k < |prepared| && dispositions[k] == NoDisposition
    ensures AreObserved(prepared, dispositions[k := d], was,
                        now[prepared[k].id := ObservedLine(now[prepared[k].id], d)])
  {
    assert IsBoundTo(prepared, prepared[k].id);
  }

  lemma NothingObserved(prepared: seq<Bound>, dispositions: seq<Disposition>, lines: seq<Line>)
    requires |dispositions| == |prepared| && forall i :: 0 <= i < |prepared| ==> dispositions[i] == NoDisposition
    ensures AreObserved(prepared, dispositions, lines, lines)
  {
  }

  // ----- one compatible outcome each

  function CountFor(units: seq<Unit>, key: string): nat {
    if units == [] then 0 else CountFor(units[..|units| - 1], key) + if units[|units| - 1].key == key then 1 else 0
  }

  /** A cancelled unit that did nothing belongs to the cancellation already observed. */
  predicate IsMatchingCancellation(u: Unit) {
    u.state == Cancelled && !u.attempted && !u.removed && u.freed == 0
  }

  predicate Agrees(d: Disposition, u: Unit) {
    d == NoDisposition || (d == CancelledEarly && IsMatchingCancellation(u))
  }

  /** No unit is foreign, repeated, or at odds with what was observed of its target. */
  ghost predicate HaveTargets(prepared: seq<Bound>, dispositions: seq<Disposition>, units: seq<Unit>)
    requires |dispositions| == |prepared|
  {
    && (forall n :: 0 <= n < |units| ==> units[n].key != "" && IndexOf(prepared, units[n].key) >= 0
                                         && Agrees(dispositions[IndexOf(prepared, units[n].key)], units[n]))
    && (forall i :: 0 <= i < |prepared| ==> CountFor(units, prepared[i].key) <= 1)
  }

  /** Besides, every target was observed or has a unit: each has exactly one outcome. */
  ghost predicate IsCompatible(prepared: seq<Bound>, dispositions: seq<Disposition>, units: seq<Unit>)
    requires |dispositions| == |prepared|
  {
    && HaveTargets(prepared, dispositions, units)
    && forall i :: 0 <= i < |prepared| ==> dispositions[i] != NoDisposition || CountFor(units, prepared[i].key) == 1
  }

  lemma CountStep(units: seq<Unit>, u: Unit, key: string)
    ensures CountFor(units + [u], key) == CountFor(units, key) + if u.key == key then 1 else 0
  {
    assert (units + [u])[..|units|] == units;
  }

  lemma {:induction false} CountMeans(units: seq<Unit>, key: string)
    ensures CountFor(units, key) > 0 <==> exists n :: 0 <= n < |units| && units[n].key == key
  {
    if units != [] {
      CountMeans(units[..|units| - 1], key);
    }
  }

  lemma IndexIs(prepared: seq<Bound>, i: int, lines: int)
    requires AreBound(prepared, lines) && 0 <= i < |prepared|
    ensures IndexOf(prepared, prepared[i].key) == i
  {
  }

  /** One more unit keeps its targets exactly when it is known, first, and agrees with what was observed. */
  lemma UnitJoins(prepared: seq<Bound>, lines: int, dispositions: seq<Disposition>, units: seq<Unit>, u: Unit)
    requires AreBound(prepared, lines) && |dispositions| == |prepared|
    ensures HaveTargets(prepared, dispositions, units + [u]) <==>
            && HaveTargets(prepared, dispositions, units) && u.key != "" && IndexOf(prepared, u.key) >= 0
            && CountFor(units, u.key) == 0 && Agrees(dispositions[IndexOf(prepared, u.key)], u)
  {
    hide IndexOf, CountFor, Agrees;
    var more := units + [u];
    forall i | 0 <= i < |prepared|
      ensures CountFor(more, prepared[i].key) == CountFor(units, prepared[i].key)
              + if u.key == prepared[i].key then 1 else 0
    {
      CountStep(units, u, prepared[i].key);
    }
    if HaveTargets(prepared, dispositions, more) {
      assert more[|units|] == u;
      assert forall n :: 0 <= n < |units| ==> units[n] == more[n];
    }
  }

  // ----- the receipt

  class GuidedReceipt {
    const receipt: Receipt
    const prepared: seq<Bound>
    var dispositions: seq<Disposition>
    var identityError: bool

    ghost predicate Valid()
      reads this, receipt
    {
      |dispositions| == |prepared| && AreBound(prepared, |receipt.lines|) && IsSound(receipt.lines)
    }

    /** A receipt for the plan, with the selected targets that safety refused already failed. */
    constructor (decisions: seq<Decision>, bound: seq<Bound>, refused: seq<int>)
      requires AreBound(bound, |decisions|)
      ensures Valid() && fresh(receipt) && prepared == bound && !identityError && |receipt.lines| == |decisions|
      ensures forall i :: 0 <= i < |bound| ==> dispositions[i] == NoDisposition
      ensures forall i :: 0 <= i < |decisions| ==> receipt.lines[i].freed == 0
      ensures forall i :: 0 <= i < |decisions| ==>
                if i in refused && !IsBoundTo(bound, i) then receipt.lines[i] == Line(Failed, true, false, 0, None)
                else receipt.lines[i] == FirstLine(decisions[i])
    {
      prepared := bound;
      dispositions := seq(|bound|, i => NoDisposition);
      identityError := false;
      var r := new Receipt(decisions);
      receipt := r;
      new;
      for i := 0 to |refused|
        modifies r
        invariant Valid() && |receipt.lines| == |decisions|
                  && forall j :: 0 <= j < |decisions| ==> receipt.lines[j].freed == 0
        invariant forall j :: 0 <= j < |decisions| ==>
                    if j in refused[..i] && !IsBoundTo(bound, j)
                      then receipt.lines[j] == Line(Failed, true, false, 0, None)
                    else receipt.lines[j] == FirstLine(decisions[j])
      {
        assert refused[..i + 1] == refused[..i] + [refused[i]];
        var isBound := false;
        for j := 0 to |prepared|
          invariant isBound <==> exists k :: 0 <= k < j && prepared[k].id == refused[i]
        {
          if prepared[j].id == refused[i] {
            isBound := true;
            break;
          }
        }
        if !isBound {
          receipt.Mark(refused[i], Failed, true);
        }
      }
    }

    /** A target left without mutation: declined, or cancelled; a second observation is an identity error. */
    method ObserveInteractiveSkip(key: string, declined: bool)
      requires Valid()
      modifies this`dispositions, this`identityError, receipt`lines
      ensures Valid() && |receipt.lines| == |old(receipt.lines)|
      ensures var i := if key == "" then -1 else IndexOf(prepared, key);
              && dispositions == (if i >= 0 && old(dispositions)[i] == NoDisposition
                                  then old(dispositions)[i := if declined then Declined else CancelledEarly]
                                    else old(dispositions))
              && identityError == (old(identityError) || i < 0 || old(dispositions)[i] != NoDisposition)
      ensures forall j :: 0 <= j < |receipt.lines| ==> receipt.lines[j].freed == old(receipt.lines)[j].freed
      ensures var i := if key == "" then -1 else IndexOf(prepared, key);
              i >= 0 && old(dispositions)[i] == NoDisposition ==>
                receipt.lines == old(receipt.lines)[prepared[i].id :=
                                   ObservedLine(old(receipt.lines)[prepared[i].id],
                                                if declined then Declined else CancelledEarly)]
    {
      var index := if key == "" then -1 else IndexOf(prepared, key);
      if index < 0 {
        identityError := true;
        return;
      }
      var id := prepared[index].id;
      if dispositions[index] != NoDisposition {
        identityError := true;
        receipt.lines := receipt.lines[id := receipt.lines[id].(state := Failed, requested := true)];
        return;
      }
      if declined {
        dispositions := dispositions[index := Declined];
        receipt.lines := receipt.lines[id := receipt.lines[id].(state := Skipped, requested := false)];
        return;
      }
      dispositions := dispositions[index := CancelledEarly];
      receipt.lines := receipt.lines[id := receipt.lines[id].(state := Cancelled, requested := true)];
    }

    /** One unit of the run: the first sets its target's line, a repeated one keeps what is known to be gone. */
    method RecordUnit(id: int, u: Unit, first: bool)
      requires 0 <= id < |receipt.lines| && IsSound(receipt.lines)
      modifies receipt`lines, receipt`residuals
      ensures |receipt.lines| == |old(receipt.lines)| && IsSound(receipt.lines)
      ensures receipt.lines == old(receipt.lines)[id := receipt.lines[id]]
      ensures first ==> receipt.lines[id] == Applied(u)
      ensures !first ==> receipt.lines[id].freed >= old(receipt.lines)[id].freed && receipt.lines[id].freed >= u.freed
                         && receipt.lines[id].removed == (old(receipt.lines)[id].removed || u.removed)
    {
      if first {
        var matched := receipt.ApplyUnit(id, u);
        return;
      }
      var line := receipt.lines[id];
      line := line.(removed := line.removed || u.removed,
                    freed := if u.freed > line.freed then u.freed else line.freed);
      if line.removed {
        line := line.(residual := None);
      } else if line.residual.Some? && u.residual > line.residual.value {
        line := line.(residual := Some(u.residual));
      }
      receipt.lines := receipt.lines[id := line];
      receipt.Note(id, u);
    }

    /** Every unit is recorded, every pending line settled, and an identity error found exactly when some prepared
        target does not have one compatible outcome. An error after a mutation is still reported in the document. */
    method Finish(execution: Result) returns (ok: bool, emitted: bool)
      requires Valid()
      modifies receipt
      ensures |receipt.lines| == |old(receipt.lines)| && IsSound(receipt.lines)
      ensures ok <==> !identityError && IsCompatible(prepared, dispositions, execution.units)
      ensures emitted <==> ok || HasMutated(execution)
      ensures emitted ==> receipt.totals == TotalsOf(receipt.lines) && IsAccounted(receipt.totals)
      ensures ok ==> receipt.status == StatusOf(receipt.totals)
      ensures emitted && !ok ==>
                receipt.status != Succeeded
                && (HasProgressed(execution) ==> receipt.status == PartialFailure)
      ensures ok ==> forall n :: 0 <= n < |execution.units| ==>
                var k := IndexOf(prepared, execution.units[n].key);
                && k >= 0 && 0 <= prepared[k].id < |receipt.lines|
                && receipt.lines[prepared[k].id] == Applied(execution.units[n])
      ensures ok ==> forall j :: 0 <= j < |receipt.lines| ==>
                                   HasUnit(prepared, execution.units, j)
                                   || receipt.lines[j] == Settled(old(receipt.lines)[j])
      ensures ok && (forall j :: 0 <= j < |old(receipt.lines)| ==> old(receipt.lines)[j].freed == 0) ==>
                && receipt.totals.freed == FreedBy(Freeing(execution.units))
                && ((forall n :: 0 <= n < |execution.units| ==> execution.units[n].freed >= 0) ==>
                    receipt.totals.freed == FreedBy(execution.units))
    {
      hide AreBound, IsCompatible, HaveTargets, CountFor, Agrees, StatusOf, FreedSum, BytesRecorded, AreSeen,
           AreRecorded, Freeing, FreedBy;
      ghost var was := receipt.lines;
      var failed, seen, invalid := RecordUnits(execution.units);
      var progressed, mutated := Progress(execution);
      failed := MarkInvalid(execution.units, failed, seen, invalid);
      ok := !failed;
      if failed && !mutated {
        return false, false;
      }
      ghost var settling := receipt.lines;
      SoundLinesAreAccounted(receipt.lines);
      var accounted := receipt.Finalize();
      if failed && (receipt.status == Succeeded || progressed) {
        receipt.status := PartialFailure;
      }
      if ok {
        RecordedMeans(prepared, was, settling, execution.units);
        BytesAreFreed(execution.units);
      }
      return ok, true;
    }

    /** The units in turn, each on the line of its target. */
    method RecordUnits(units: seq<Unit>) returns (failed: bool, seen: seq<bool>, invalid: seq<bool>)
      requires Valid()
      modifies receipt`lines, receipt`residuals
      ensures |receipt.lines| == |old(receipt.lines)| && IsSound(receipt.lines)
      ensures failed <==> identityError || !HaveTargets(prepared, dispositions, units)
      ensures AreSeen(prepared, seen, units) && |invalid| == |prepared|
      ensures !failed ==>
                AreRecorded(prepared, old(receipt.lines), receipt.lines, units)
                && forall i :: 0 <= i < |invalid| ==> !invalid[i]
    {
      hide AreBound, IsCompatible, HaveTargets, CountFor, Agrees, AreSeen, AreRecorded;
      ghost var was := receipt.lines;
      failed := identityError;
      seen := seq(|prepared|, i => false);
      invalid := seq(|prepared|, i => false);
      NothingRecorded(prepared, dispositions, was, units);
      for n := 0 to |units|
        invariant |seen| == |invalid| == |prepared| && |receipt.lines| == |was| && IsSound(receipt.lines)
        invariant failed <==> identityError || !HaveTargets(prepared, dispositions, units[..n])
        invariant AreSeen(prepared, seen, units[..n])
        invariant !failed ==>
                    AreRecorded(prepared, was, receipt.lines, units[..n])
                    && forall i :: 0 <= i < |invalid| ==> !invalid[i]
      {
        var u := units[n];
        assert units[..n + 1] == units[..n] + [u];
        UnitJoins(prepared, |was|, dispositions, units[..n], u);
        var index := if u.key == "" then -1 else IndexOf(prepared, u.key);
        SeenStep(prepared, |was|, seen, units[..n], u);
        if index < 0 {
          failed := true;
          continue;
        }
        var id := IdAt(prepared, index, |was|);
        if seen[index] || !Agrees(dispositions[index], u) {
          failed := true;
          invalid := invalid[index := true];
        }
        ghost var before := receipt.lines;
        RecordUnit(id, u, !seen[index]);
        if !failed {
          RecordStep(prepared, was, before, receipt.lines, units[..n], u);
        }
        seen := seen[index := true];
      }
      assert units[..|units|] == units;
    }

    /** Targets without any outcome fail the identity check, and the invalid ones fail on their lines. */
    method MarkInvalid(ghost units: seq<Unit>, failedBefore: bool, seen: seq<bool>, invalid: seq<bool>)
      returns (failed: bool)
      requires Valid() && AreSeen(prepared, seen, units) && |invalid| == |prepared|
      requires failedBefore <==> identityError || !HaveTargets(prepared, dispositions, units)
      requires !failedBefore ==> forall i :: 0 <= i < |invalid| ==> !invalid[i]
      modifies receipt`lines
      ensures |receipt.lines| == |old(receipt.lines)| && IsSound(receipt.lines)
      ensures failed <==> identityError || !IsCompatible(prepared, dispositions, units)
      ensures failedBefore ==> failed
      ensures !failed ==> receipt.lines == old(receipt.lines)
    {
      hide AreBound, IsCompatible, HaveTargets, CountFor;
      ghost var was := receipt.lines;
      failed := failedBefore;
      for i := 0 to |prepared|
        invariant |receipt.lines| == |was| && IsSound(receipt.lines)
        invariant failed <==> failedBefore || exists j :: 0 <= j < i && dispositions[j] == NoDisposition && !seen[j]
        invariant !failedBefore ==> receipt.lines == was
      {
        var id := IdAt(prepared, i, |was|);
        if !seen[i] && dispositions[i] == NoDisposition {
          failed := true;
        }
        if invalid[i] {
          receipt.lines := receipt.lines[id := receipt.lines[id].(state := Failed, requested := true)];
        }
      }
      CompatibleMeans(prepared, dispositions, seen, units);
    }
  }

  /** Whether the execution reclaimed anything, and whether it tried to. */
  method Progress(execution: Result) returns (progressed: bool, mutated: bool)
    ensures progressed <==> HasProgressed(execution)
    ensures mutated <==> HasMutated(execution)
  {
    hide UnitProgressed;
    progressed := execution.freed > 0;
    mutated := progressed;
    for n := 0 to |execution.units|
      invariant progressed <==> execution.freed > 0 || exists m :: 0 <= m < n && UnitProgressed(execution.units[m])
      invariant mutated <==> execution.freed > 0 ||
                             exists m :: 0 <= m < n
                               && (execution.units[m].attempted || UnitProgressed(execution.units[m]))
    {
      var p := UnitProgressed(execution.units[n]);
      progressed := progressed || p;
      mutated := mutated || execution.units[n].attempted || p;
    }
  }

  predicate UnitProgressed(u: Unit) {
    HasMutation(u) || u.freed > 0 || u.state == Removed || u.state == Partial
  }

  ghost predicate HasProgressed(execution: Result) {
    execution.freed > 0 || exists n :: 0 <= n < |execution.units| && UnitProgressed(execution.units[n])
  }

  /** A removal was attempted or made progress, so the receipt is evidence. */
  ghost predicate HasMutated(execution: Result) {
    execution.freed > 0
    || exists n :: 0 <= n < |execution.units| && (execution.units[n].attempted || UnitProgressed(execution.units[n]))
  }

  function BytesRecorded(units: seq<Unit>): int {
    if units == [] then 0 else BytesRecorded(units[..|units| - 1]) + NonNegative(units[|units| - 1].freed)
  }

  /** The units that did not free a negative amount. */
  ghost function Freeing(units: seq<Unit>): (r: seq<Unit>)
    ensures forall u :: multiset(r)[u] == if u.freed >= 0 then multiset(units)[u] else 0
    ensures (forall n :: 0 <= n < |units| ==> units[n].freed >= 0) ==> r == units
  {
    if units == [] then []
    else
      var front, last := units[..|units| - 1], units[|units| - 1];
      assert units == front + [last];
      Freeing(front) + if last.freed >= 0 then [last] else []
  }

  /** The bytes recorded are those the units freed, but for units that freed a negative amount. */
  lemma {:induction false} BytesAreFreed(units: seq<Unit>)
    ensures BytesRecorded(units) == FreedBy(Freeing(units))
  {
    if units != [] {
      var front, last := units[..|units| - 1], units[|units| - 1];
      BytesAreFreed(front);
      FreedIsASum(Freeing(front), [last]);
      assert Freeing(front) + [] == Freeing(front);
    }
  }

  ghost predicate AreSeen(prepared: seq<Bound>, seen: seq<bool>, units: seq<Unit>) {
    |seen| == |prepared| && forall i :: 0 <= i < |prepared| ==> (seen[i] <==> CountFor(units, prepared[i].key) > 0)
  }

  lemma SeenStep(prepared: seq<Bound>, lines: int, seen: seq<bool>, units: seq<Unit>, u: Unit)
    requires AreBound(prepared, lines) && AreSeen(prepared, seen, units)
    ensures IndexOf(prepared, u.key) >= 0 ==>
              && AreSeen(prepared, seen[IndexOf(prepared, u.key) := true], units + [u])
              && (seen[IndexOf(prepared, u.key)] <==> CountFor(units, u.key) > 0)
    ensures IndexOf(prepared, u.key) < 0 ==> AreSeen(prepared, seen, units + [u])
    ensures u.key == "" ==> IndexOf(prepared, u.key) < 0
  {
    hide CountFor;
    forall i | 0 <= i < |prepared|
      ensures CountFor(units + [u], prepared[i].key) == CountFor(units, prepared[i].key)
              + if u.key == prepared[i].key then 1 else 0
    {
      CountStep(units, u, prepared[i].key);
    }
  }

  function IdAt(prepared: seq<Bound>, i: int, ghost lines: int): (id: int)
    requires AreBound(prepared, lines) && 0 <= i < |prepared|
    ensures id == prepared[i].id && 0 <= id < lines
  {
    prepared[i].id
  }

  /** The units set their lines, the other lines are as they were, and the sum grew by what the units freed. */
  ghost predicate AreRecorded(prepared: seq<Bound>, was: seq<Line>, now: seq<Line>, units: seq<Unit>) {
    && |now| == |was|
    && (forall n :: 0 <= n < |units| ==> IsRecorded(prepared, now, units[n]))
    && (forall i :: 0 <= i < |prepared| && CountFor(units, prepared[i].key) == 0 && 0 <= prepared[i].id < |was| ==>
          now[prepared[i].id] == was[prepared[i].id])
    && ((forall j :: 0 <= j < |was| ==> was[j].freed == 0) ==> FreedSum(now) == BytesRecorded(units))
    && (forall j :: 0 <= j < |was| && now[j] != was[j] ==> HasUnit(prepared, units, j) && IsOutcome(now[j].state))
  }

  /** Some unit is for the target with the line. */
  ghost predicate HasUnit(prepared: seq<Bound>, units: seq<Unit>, line: int) {
    exists n :: 0 <= n < |units| && IsFor(prepared, units[n], line)
  }

  ghost predicate IsFor(prepared: seq<Bound>, u: Unit, line: int) {
    IndexOf(prepared, u.key) >= 0 && prepared[IndexOf(prepared, u.key)].id == line
  }

  ghost predicate IsRecorded(prepared: seq<Bound>, lines: seq<Line>, u: Unit) {
    var i := IndexOf(prepared, u.key);
    i >= 0 && 0 <= prepared[i].id < |lines| && lines[prepared[i].id] == Applied(u)
  }

  lemma {:induction false} ZeroFreed(lines: seq<Line>)
    requires forall j :: 0 <= j < |lines| ==> lines[j].freed == 0
    ensures FreedSum(lines) == 0
  {
    if lines != [] {
      ZeroFreed(lines[..|lines| - 1]);
    }
  }

  lemma NothingRecorded(prepared: seq<Bound>, dispositions: seq<Disposition>, was: seq<Line>, units: seq<Unit>)
    requires |dispositions| == |prepared|
    ensures HaveTargets(prepared, dispositions, units[..0])
            && AreSeen(prepared, seq(|prepared|, i => false), units[..0])
    ensures AreRecorded(prepared, was, was, units[..0])
  {
    assert units[..0] == [];
    if forall j :: 0 <= j < |was| ==> was[j].freed == 0 {
      ZeroFreed(was);
    }
  }

  lemma RecordStep(prepared: seq<Bound>, was: seq<Line>, before: seq<Line>, now: seq<Line>, units: seq<Unit>, u: Unit)
    requires AreBound(prepared, |was|) && AreRecorded(prepared, was, before, units)
    requires IndexOf(prepared, u.key) >= 0 && CountFor(units, u.key) == 0
    requires now == before[prepared[IndexOf(prepared, u.key)].id := Applied(u)]
    ensures AreRecorded(prepared, was, now, units + [u])
  {
    hide FreedSum, BytesRecorded, CountFor, Applied;
    var more := units + [u];
    var index := IndexOf(prepared, u.key);
    var id := prepared[index].id;
    forall n | 0 <= n < |more| ensures IsRecorded(prepared, now, more[n]) {
      if n < |units| {
        assert IsRecorded(prepared, before, units[n]);
        CountMeans(units, u.key);
        assert units[n].key != u.key;
        assert IndexOf(prepared, units[n].key) != index;
      }
    }
    forall i | 0 <= i < |prepared| && CountFor(more, prepared[i].key) == 0 && 0 <= prepared[i].id < |was|
      ensures now[prepared[i].id] == was[prepared[i].id]
    {
      CountStep(units, u, prepared[i].key);
      assert i != index;
    }
    FreedAfter(before, id, Applied(u));
    BytesStep(units, u);
    assert before[id] == was[id];
    AppliedShows(u);
    forall j | 0 <= j < |was| && now[j] != was[j] ensures HasUnit(prepared, more, j) && IsOutcome(now[j].state) {
      if j == id {
        assert IsFor(prepared, more[|units|], j);
      } else {
        var n :| 0 <= n < |units| && IsFor(prepared, units[n], j);
        assert IsFor(prepared, more[n], j);
      }
    }
  }

  lemma BytesStep(units: seq<Unit>, u: Unit)
    ensures BytesRecorded(units + [u]) == BytesRecorded(units) + NonNegative(u.freed)
            && Applied(u).freed == NonNegative(u.freed)
  {
    assert (units + [u])[..|units|] == units;
  }

  lemma CompatibleMeans(prepared: seq<Bound>, dispositions: seq<Disposition>, seen: seq<bool>, units: seq<Unit>)
    requires |dispositions| == |prepared| && AreSeen(prepared, seen, units)
    ensures IsCompatible(prepared, dispositions, units) <==>
            HaveTargets(prepared, dispositions, units)
            && !exists j :: 0 <= j < |prepared| && dispositions[j] == NoDisposition && !seen[j]
  {
    hide CountFor, Agrees;
    if HaveTargets(prepared, dispositions, units) && !exists j :: 0 <= j < |prepared|
                                                                  && dispositions[j] == NoDisposition && !seen[j] {
      forall i | 0 <= i < |prepared| ensures dispositions[i] != NoDisposition || CountFor(units, prepared[i].key) == 1 {
        assert dispositions[i] == NoDisposition ==> seen[i];
      }
    }
    if IsCompatible(prepared, dispositions, units) {
      forall j | 0 <= j < |prepared| ensures !(dispositions[j] == NoDisposition && !seen[j]) {
      }
    }
  }

  lemma RecordedMeans(prepared: seq<Bound>, was: seq<Line>, now: seq<Line>, units: seq<Unit>)
    requires AreRecorded(prepared, was, now, units)
    ensures forall n :: 0 <= n < |units| ==> IndexOf(prepared, units[n].key) >= 0
                                             && 0 <= prepared[IndexOf(prepared, units[n].key)].id < |now|
                                             && AllSettled(now)[prepared[IndexOf(prepared, units[n].key)].id] ==
                                                Applied(units[n])
    ensures forall j :: 0 <= j < |was| ==> HasUnit(prepared, units, j) || AllSettled(now)[j] == Settled(was[j])
    ensures (forall j :: 0 <= j < |was| ==> was[j].freed == 0) ==>
              TotalsOf(AllSettled(now)).freed == BytesRecorded(units)
  {
    hide FreedSum, BytesRecorded, CountFor, RequestedCount, CountOf;
    forall n | 0 <= n < |units| ensures IsRecorded(prepared, now, units[n]) && Applied(units[n]).state != Pending {
    }
    if forall j :: 0 <= j < |was| ==> was[j].freed == 0 {
      forall j | 0 <= j < |now| && now[j].state == Pending ensures now[j].freed == 0 {
      }
      SettlingFreesNothing(now);
    }
  }

  // ----- the confirmation loop

  datatype Answer = InputFailed | EndOfInput | Approved | Refused

  datatype Validation = Valid | ValidationCanceled | Invalid

  /** Everything the loop asks, by target: whether the context has ended (before the prompt and after a failed read),
      whether the path is safe, what was answered, what validation said, and how execution goes. */
  datatype GuidedWorld = GuidedWorld(ended: int -> bool, isSafe: int -> bool, answer: int -> Answer,
                                     endedReading: int -> bool,
                                     validation: int -> Validation, world: int -> World)

  /** The targets' keys are those of the prepared ones. */
  ghost predicate CoversPrepared(targets: seq<Target>, prepared: seq<Bound>) {
    && HasKeys(targets)
    && (forall i :: 0 <= i < |targets| ==> IndexOf(prepared, targets[i].key) >= 0)
    && (forall j :: 0 <= j < |prepared| ==> exists i :: 0 <= i < |targets| && targets[i].key == prepared[j].key)
  }

  /** The first n targets have their outcomes and the others have none. */
  ghost predicate AreDone(targets: seq<Target>, n: int, prepared: seq<Bound>, dispositions: seq<Disposition>,
                          units: seq<Unit>) {
    && 0 <= n <= |targets| && |dispositions| == |prepared| && HaveTargets(prepared, dispositions, units)
    && (forall i :: 0 <= i < n ==> IsDone(prepared, dispositions, units, targets[i].key))
    && (forall i :: n <= i < |targets| ==> IsOpen(prepared, dispositions, units, targets[i].key))
  }

  ghost predicate IsDone(prepared: seq<Bound>, dispositions: seq<Disposition>, units: seq<Unit>, key: string)
    requires |dispositions| == |prepared|
  {
    IndexOf(prepared, key) >= 0 ==> dispositions[IndexOf(prepared, key)] != NoDisposition || CountFor(units, key) == 1
  }

  ghost predicate IsOpen(prepared: seq<Bound>, dispositions: seq<Disposition>, units: seq<Unit>, key: string)
    requires |dispositions| == |prepared|
  {
    CountFor(units, key) == 0 && (IndexOf(prepared, key) >= 0 ==> dispositions[IndexOf(prepared, key)] == NoDisposition)
  }

  lemma NothingDone(targets: seq<Target>, prepared: seq<Bound>, dispositions: seq<Disposition>)
    requires |dispositions| == |prepared| && forall i :: 0 <= i < |prepared| ==> dispositions[i] == NoDisposition
    ensures AreDone(targets, 0, prepared, dispositions, [])
  {
    assert forall key: string :: CountFor([], key) == 0;
  }

  lemma AllDone(targets: seq<Target>, prepared: seq<Bound>, lines: int, dispositions: seq<Disposition>,
                units: seq<Unit>)
    requires AreBound(prepared, lines) && CoversPrepared(targets, prepared)
    requires AreDone(targets, |targets|, prepared, dispositions, units)
    ensures IsCompatible(prepared, dispositions, units)
  {
    hide CountFor, Agrees, HaveTargets;
    forall j | 0 <= j < |prepared| ensures dispositions[j] != NoDisposition || CountFor(units, prepared[j].key) == 1 {
      var i :| 0 <= i < |targets| && targets[i].key == prepared[j].key;
      assert IsDone(prepared, dispositions, units, targets[i].key);
      IndexIs(prepared, j, lines);
    }
  }

  /** A unit for the next target, which was not observed, is its outcome. */
  lemma DoneByUnit(targets: seq<Target>, n: int, prepared: seq<Bound>, lines: int, dispositions: seq<Disposition>,
                   units: seq<Unit>, u: Unit)
    requires AreBound(prepared, lines) && CoversPrepared(targets, prepared)
             && AreDone(targets, n, prepared, dispositions, units)
    requires n < |targets| && u.key == targets[n].key
    ensures AreDone(targets, n + 1, prepared, dispositions, units + [u])
  {
    hide CountFor, HaveTargets;
    assert IsOpen(prepared, dispositions, units, targets[n].key);
    UnitJoins(prepared, lines, dispositions, units, u);
    CountStep(units, u, u.key);
    forall i | 0 <= i < n ensures IsDone(prepared, dispositions, units + [u], targets[i].key) {
      assert IsDone(prepared, dispositions, units, targets[i].key);
      CountStep(units, u, targets[i].key);
    }
    forall i | n + 1 <= i < |targets| ensures IsOpen(prepared, dispositions, units + [u], targets[i].key) {
      assert IsOpen(prepared, dispositions, units, targets[i].key);
      CountStep(units, u, targets[i].key);
    }
  }

  /** An observation of the next target is its outcome. */
  lemma DoneByObservation(targets: seq<Target>, n: int, prepared: seq<Bound>, lines: int,
                          dispositions: seq<Disposition>,
                          units: seq<Unit>, d: Disposition)
    requires AreBound(prepared, lines) && CoversPrepared(targets, prepared)
             && AreDone(targets, n, prepared, dispositions, units)
    requires n < |targets| && d != NoDisposition
    ensures IndexOf(prepared, targets[n].key) >= 0 && dispositions[IndexOf(prepared, targets[n].key)] == NoDisposition
    ensures AreDone(targets, n + 1, prepared, dispositions[IndexOf(prepared, targets[n].key) := d], units)
  {
    hide CountFor;
    var key := targets[n].key;
    var index := IndexOf(prepared, key);
    var after := dispositions[index := d];
    assert IsOpen(prepared, dispositions, units, key);
    CountMeans(units, key);
    forall m | 0 <= m < |units| ensures Agrees(after[IndexOf(prepared, units[m].key)], units[m]) {
      assert units[m].key != key;
    }
    assert HaveTargets(prepared, after, units);
    forall i | 0 <= i < n ensures IsDone(prepared, after, units, targets[i].key) {
      assert IsDone(prepared, dispositions, units, targets[i].key);
    }
    forall i | n + 1 <= i < |targets| ensures IsOpen(prepared, after, units, targets[i].key) {
      assert IsOpen(prepared, dispositions, units, targets[i].key);
      assert targets[i].key != key;
    }
  }

  /** A matching cancelled unit may follow the observation of a cancellation. */
  lemma CancellationJoins(targets: seq<Target>, n: int, prepared: seq<Bound>, lines: int,
                          dispositions: seq<Disposition>,
                          units: seq<Unit>, u: Unit)
    requires AreBound(prepared, lines) && CoversPrepared(targets, prepared)
             && AreDone(targets, n + 1, prepared, dispositions, units)
    requires 0 <= n < |targets| && u.key == targets[n].key && IsMatchingCancellation(u) && CountFor(units, u.key) == 0
    requires dispositions[IndexOf(prepared, u.key)] == CancelledEarly
    ensures AreDone(targets, n + 1, prepared, dispositions, units + [u])
  {
    hide CountFor, HaveTargets;
    UnitJoins(prepared, lines, dispositions, units, u);
    forall i | 0 <= i < n + 1 ensures IsDone(prepared, dispositions, units + [u], targets[i].key) {
      assert IsDone(prepared, dispositions, units, targets[i].key);
      CountStep(units, u, targets[i].key);
    }
    forall i | n + 1 <= i < |targets| ensures IsOpen(prepared, dispositions, units + [u], targets[i].key) {
      assert IsOpen(prepared, dispositions, units, targets[i].key);
      CountStep(units, u, targets[i].key);
    }
  }

  lemma OpenNow(targets: seq<Target>, n: int, prepared: seq<Bound>, dispositions: seq<Disposition>, units: seq<Unit>)
    requires AreDone(targets, n, prepared, dispositions, units) && n < |targets|
    ensures CountFor(units, targets[n].key) == 0
  {
    hide CountFor;
    assert IsOpen(prepared, dispositions, units, targets[n].key);
  }

  // ----- what the answers come to

  datatype Stop = GoOn | StopCancelled | StopUnanswered | StopFailed

  /** Whether and how the loop ends at target i. */
  function StopAt(g: GuidedWorld, i: int): Stop {
    if g.ended(i) then StopCancelled
    else if !g.isSafe(i) then GoOn
    else
      match g.answer(i)
      case InputFailed => if g.endedReading(i) then StopCancelled else StopUnanswered
      case EndOfInput => StopUnanswered
      case Refused => GoOn
      case Approved =>
        match g.validation(i)
        case Valid => GoOn
        case ValidationCanceled => StopCancelled
        case Invalid => StopFailed
  }

  predicate IsDeclined(g: GuidedWorld, i: int) {
    g.isSafe(i) && g.answer(i) == Refused
  }

  /** The unit of an approved target: cancelled when the context ended before it, else as executed. */
  function ExecutedUnit(t: Target, w: World): Unit {
    if w.ended(0).Some? then CancelledUnit(t.key) else UnitFor(0, t, w).0
  }

  /** The target was declined, or was safe and executed without a failure. */
  ghost predicate PassedWell(targets: seq<Target>, g: GuidedWorld, i: int)
    requires 0 <= i < |targets|
  {
    g.isSafe(i) && (g.answer(i) == Refused || Executed([targets[i]], g.world(i)).1 == None)
  }

  /** The units of the first n targets when the loop passes all of them. */
  function UnitsBefore(targets: seq<Target>, g: GuidedWorld, n: nat): seq<Unit>
    requires n <= |targets|
  {
    if n == 0 then []
    else
      UnitsBefore(targets, g, n - 1)
      + if !g.isSafe(n - 1) then [FailedUnit(targets[n - 1].key)]
        else if IsDeclined(g, n - 1) then []
        else [ExecutedUnit(targets[n - 1], g.world(n - 1))]
  }

  /** The units of the targets from n on, when the loop stops there. */
  function UnitsAfter(targets: seq<Target>, stop: Stop, n: nat): seq<Unit>
    requires n <= |targets|
    decreases |targets| - n
  {
    if n == |targets| || stop == GoOn || stop == StopUnanswered then []
    else
      [if stop == StopCancelled then CancelledUnit(targets[n].key).(residual := targets[n].size)
       else FailedUnit(targets[n].key)]
      + UnitsAfter(targets, stop, n + 1)
  }

  /** The targets the loop passes, and how it stops after them. */
  ghost predicate IsStop(g: GuidedWorld, targets: seq<Target>, stop: int) {
    0 <= stop <= |targets| && (forall i :: 0 <= i < stop ==> StopAt(g, i) == GoOn)
    && (stop < |targets| ==> StopAt(g, stop) != GoOn)
  }

  function StopKind(g: GuidedWorld, targets: seq<Target>, stop: int): Stop {
    if 0 <= stop < |targets| then StopAt(g, stop) else GoOn
  }

  function DispositionFor(g: GuidedWorld, i: int, stop: int, kind: Stop): Disposition {
    if i < stop then (if IsDeclined(g, i) then Declined else NoDisposition)
    else if kind == StopCancelled || kind == StopUnanswered then CancelledEarly
    else NoDisposition
  }

  function DispositionOf(prepared: seq<Bound>, dispositions: seq<Disposition>, key: string): Disposition {
    var i := IndexOf(prepared, key);
    if 0 <= i < |dispositions| then dispositions[i] else NoDisposition
  }

  /** Up to target n the dispositions are those of a loop that stopped at stop; later ones are still open. */
  ghost predicate AreDisposed(targets: seq<Target>, g: GuidedWorld, stop: int, kind: Stop, n: int,
                              prepared: seq<Bound>, dispositions: seq<Disposition>) {
    && (forall i :: 0 <= i < n && i < |targets| ==>
          DispositionOf(prepared, dispositions, targets[i].key) == DispositionFor(g, i, stop, kind))
    && (forall i :: 0 <= i && n <= i < |targets| ==>
        DispositionOf(prepared, dispositions, targets[i].key) == NoDisposition)
  }

  lemma DisposeOne(targets: seq<Target>, g: GuidedWorld, stop: int, kind: Stop, n: int, prepared: seq<Bound>,
                   dispositions: seq<Disposition>, d: Disposition)
    requires HasKeys(targets) && 0 <= n < |targets| && 0 <= IndexOf(prepared, targets[n].key) < |dispositions|
    requires AreDisposed(targets, g, stop, kind, n, prepared, dispositions) && d == DispositionFor(g, n, stop, kind)
    ensures AreDisposed(targets, g, stop, kind, n + 1, prepared, dispositions[IndexOf(prepared, targets[n].key) := d])
  {
    hide DispositionFor;
    var index := IndexOf(prepared, targets[n].key);
    var after := dispositions[index := d];
    forall i | 0 <= i < |targets| && i != n
      ensures DispositionOf(prepared, after, targets[i].key) == DispositionOf(prepared, dispositions, targets[i].key)
    {
      assert targets[i].key != targets[n].key;
    }
  }

  lemma DisposeNone(targets: seq<Target>, g: GuidedWorld, stop: int, kind: Stop, n: int, prepared: seq<Bound>,
                    dispositions: seq<Disposition>)
    requires 0 <= n < |targets| && DispositionFor(g, n, stop, kind) == NoDisposition
    requires AreDisposed(targets, g, stop, kind, n, prepared, dispositions)
    ensures AreDisposed(targets, g, stop, kind, n + 1, prepared, dispositions)
  {
  }

  /** While the loop goes on, where and how it will stop does not matter. */
  lemma DisposedSoFar(targets: seq<Target>, g: GuidedWorld, n: int, kind: Stop, prepared: seq<Bound>,
                      dispositions: seq<Disposition>)
    requires AreDisposed(targets, g, |targets|, GoOn, n, prepared, dispositions) && 0 <= n <= |targets|
    ensures AreDisposed(targets, g, n, kind, n, prepared, dispositions)
  {
  }

  class GuidedLoop {
    const observer: GuidedReceipt
    var units: seq<Unit>
    var freed: int
    ghost const first: seq<Line>

    /** The observer's receipt is sound, nothing was freed on its lines, and the first n targets have their outcomes. */
    ghost predicate Holds(targets: seq<Target>, n: int)
      reads this, observer, observer.receipt
    {
      && observer.Valid() && !observer.identityError && CoversPrepared(targets, observer.prepared)
      && AreDone(targets, n, observer.prepared, observer.dispositions, units) && freed == FreedBy(units)
      && AreObserved(observer.prepared, observer.dispositions, first, observer.receipt.lines)
      && forall j :: 0 <= j < |observer.receipt.lines| ==> observer.receipt.lines[j].freed == 0
    }

    constructor (o: GuidedReceipt, ghost targets: seq<Target>)
      requires o.Valid() && !o.identityError && CoversPrepared(targets, o.prepared)
      requires forall i :: 0 <= i < |o.prepared| ==> o.dispositions[i] == NoDisposition
      requires forall j :: 0 <= j < |o.receipt.lines| ==> o.receipt.lines[j].freed == 0
      ensures observer == o && Holds(targets, 0) && units == [] && first == o.receipt.lines
    {
      observer, units, freed := o, [], 0;
      first := o.receipt.lines;
      NothingObserved(o.prepared, o.dispositions, o.receipt.lines);
      NothingDone(targets, o.prepared, o.dispositions);
    }

    method Observe(targets: seq<Target>, n: int, declined: bool)
      requires Holds(targets, n) && n < |targets|
      modifies observer`dispositions, observer`identityError, observer.receipt`lines
      ensures Holds(targets, n + 1) && units == old(units)
      ensures 0 <= IndexOf(observer.prepared, targets[n].key) < |old(observer.dispositions)|
      ensures observer.dispositions == old(observer.dispositions)[IndexOf(observer.prepared, targets[n].key) :=
                                         if declined then Declined else CancelledEarly]
    {
      hide HaveTargets, IndexOf, IsDone, IsOpen, AreBound;
      DoneByObservation(targets, n, observer.prepared, |observer.receipt.lines|, observer.dispositions, units,
                        if declined then Declined else CancelledEarly);
      ObservedStep(observer.prepared, observer.dispositions, first, observer.receipt.lines,
                   IndexOf(observer.prepared, targets[n].key), if declined then Declined else CancelledEarly);
      observer.ObserveInteractiveSkip(targets[n].key, declined);
    }

    method AddUnit(targets: seq<Target>, n: int, u: Unit)
      requires Holds(targets, n) && n < |targets| && u.key == targets[n].key
      modifies this`units, this`freed
      ensures Holds(targets, n + 1) && units == old(units) + [u]
    {
      hide HaveTargets, IndexOf, IsDone, IsOpen, AreBound;
      DoneByUnit(targets, n, observer.prepared, |observer.receipt.lines|, observer.dispositions, units, u);
      FreedStep(units, u);
      units := units + [u];
      freed := freed + u.freed;
    }

    /** The targets from n on are observed as cancelled, and each has a cancelled unit. */
    method CancelRemaining(targets: seq<Target>, n: int, ghost g: GuidedWorld)
      requires Holds(targets, n) && 0 <= n <= |targets|
      requires AreDisposed(targets, g, n, StopCancelled, n, observer.prepared, observer.dispositions)
      modifies this`units, this`freed, observer`dispositions, observer`identityError, observer.receipt`lines
      ensures Holds(targets, |targets|) && units == old(units) + UnitsAfter(targets, StopCancelled, n)
      ensures AreDisposed(targets, g, n, StopCancelled, |targets|, observer.prepared, observer.dispositions)
    {
      hide HaveTargets, IndexOf, IsDone, IsOpen, AreBound, AreDone, CoversPrepared, AreDisposed, UnitsAfter;
      for i := n to |targets|
        invariant Holds(targets, i) && units + UnitsAfter(targets, StopCancelled, i) ==
                    old(units) + UnitsAfter(targets, StopCancelled, n)
        invariant AreDisposed(targets, g, n, StopCancelled, i, observer.prepared, observer.dispositions)
      {
        OpenNow(targets, i, observer.prepared, observer.dispositions, units);
        KeysOfCovered(targets, observer.prepared);
        ghost var before := observer.dispositions;
        Observe(targets, i, false);
        DisposeOne(targets, g, n, StopCancelled, i, observer.prepared, before, CancelledEarly);
        var u := CancelledUnit(targets[i].key).(residual := targets[i].size);
        CancellationJoins(targets, i, observer.prepared, |observer.receipt.lines|, observer.dispositions, units, u);
        FreedStep(units, u);
        NextAfter(targets, StopCancelled, i, units, u);
        units := units + [u];
      }
      NoneAfter(targets, StopCancelled, units);
    }

    method ReportUnanswered(targets: seq<Target>, n: int, ghost g: GuidedWorld)
      requires Holds(targets, n) && 0 <= n <= |targets|
      requires AreDisposed(targets, g, n, StopUnanswered, n, observer.prepared, observer.dispositions)
      modifies observer`dispositions, observer`identityError, observer.receipt`lines
      ensures Holds(targets, |targets|)
      ensures AreDisposed(targets, g, n, StopUnanswered, |targets|, observer.prepared, observer.dispositions)
    {
      hide AreDisposed, AreDone, CoversPrepared, IndexOf, AreBound;
      for i := n to |targets|
        invariant Holds(targets, i)
        invariant AreDisposed(targets, g, n, StopUnanswered, i, observer.prepared, observer.dispositions)
      {
        KeysOfCovered(targets, observer.prepared);
        ghost var before := observer.dispositions;
        Observe(targets, i, false);
        DisposeOne(targets, g, n, StopUnanswered, i, observer.prepared, before, CancelledEarly);
      }
    }

    method FailRemaining(targets: seq<Target>, n: int, ghost g: GuidedWorld)
      requires Holds(targets, n) && 0 <= n <= |targets|
      requires AreDisposed(targets, g, n, StopFailed, n, observer.prepared, observer.dispositions)
      modifies this`units, this`freed
      ensures Holds(targets, |targets|) && units == old(units) + UnitsAfter(targets, StopFailed, n)
      ensures AreDisposed(targets, g, n, StopFailed, |targets|, observer.prepared, observer.dispositions)
    {
      hide Holds, AreDisposed, UnitsAfter;
      for i := n to |targets|
        invariant Holds(targets, i) && units + UnitsAfter(targets, StopFailed, i) ==
                    old(units) + UnitsAfter(targets, StopFailed, n)
        invariant AreDisposed(targets, g, n, StopFailed, i, observer.prepared, observer.dispositions)
      {
        NextAfter(targets, StopFailed, i, units, FailedUnit(targets[i].key));
        AddUnit(targets, i, FailedUnit(targets[i].key));
        DisposeNone(targets, g, n, StopFailed, i, observer.prepared, observer.dispositions);
      }
      NoneAfter(targets, StopFailed, units);
    }

    /** The prompts in turn: units and dispositions are those the answers call for, and however the loop ends, every
        prepared target has one compatible outcome. */
    method Clean(targets: seq<Target>, g: GuidedWorld) returns (ok: bool, ghost stop: int)
      requires Holds(targets, 0) && units == []
      requires AreDisposed(targets, g, |targets|, GoOn, 0, observer.prepared, observer.dispositions)
      modifies this`units, this`freed, observer`dispositions, observer`identityError, observer.receipt`lines
      ensures Holds(targets, |targets|) && IsStop(g, targets, stop) && 0 <= stop <= |targets|
      ensures units == UnitsBefore(targets, g, stop) + UnitsAfter(targets, StopKind(g, targets, stop), stop)
      ensures AreDisposed(targets, g, stop, StopKind(g, targets, stop), |targets|, observer.prepared,
                          observer.dispositions)
      ensures ok <==>
              && (stop < |targets| ==> !g.ended(stop) && g.answer(stop) == EndOfInput)
              && forall j :: 0 <= j < stop ==> PassedWell(targets, g, j)
    {
      hide Holds, AreDisposed, UnitsBefore, UnitsAfter, ExecutedUnit, Executed;
      ok := true;
      assert UnitsBefore(targets, g, 0) == [] by {
        NothingBefore(targets, g);
      }
      for i := 0 to |targets|
        invariant Holds(targets, i) && units == UnitsBefore(targets, g, i)
        invariant forall j :: 0 <= j < i ==> StopAt(g, j) == GoOn
        invariant ok <==> forall j :: 0 <= j < i ==> PassedWell(targets, g, j)
        invariant AreDisposed(targets, g, |targets|, GoOn, i, observer.prepared, observer.dispositions)
      {
        stop := i;
        ghost var passes := PassedWell(targets, g, i);
        DisposedSoFar(targets, g, i, StopAt(g, i), observer.prepared, observer.dispositions);
        NextBefore(targets, g, i);
        if g.ended(i) {
          CancelRemaining(targets, i, g);
          return false, i;
        }
        if !g.isSafe(i) {
          AddUnit(targets, i, FailedUnit(targets[i].key));
          DisposeNone(targets, g, |targets|, GoOn, i, observer.prepared, observer.dispositions);
          ok := false;
          continue;
        }
        match g.answer(i) {
          case InputFailed =>
            if g.endedReading(i) {
              CancelRemaining(targets, i, g);
            } else {
              NothingUnanswered(targets, i, units);
              ReportUnanswered(targets, i, g);
            }
            return false, i;
          case EndOfInput =>
            NothingUnanswered(targets, i, units);
            ReportUnanswered(targets, i, g);
            return ok, i;
          case Refused =>
            HoldsKeys(targets, i);
            ghost var before := observer.dispositions;
            Observe(targets, i, true);
            DisposeOne(targets, g, |targets|, GoOn, i, observer.prepared, before, Declined);
          case Approved =>
            match g.validation(i) {
              case ValidationCanceled =>
                CancelRemaining(targets, i, g);
                return false, i;
              case Invalid =>
                FailRemaining(targets, i, g);
                return false, i;
              case Valid =>
                var executed := ExecuteOne(targets, i, g.world(i));
                DisposeNone(targets, g, |targets|, GoOn, i, observer.prepared, observer.dispositions);
                ok := ok && executed;
            }
        }
      }
      stop := |targets|;
      NothingUnanswered(targets, |targets|, units);
    }

    lemma HoldsKeys(targets: seq<Target>, n: int)
      requires Holds(targets, n)
      ensures HasKeys(targets)
    {
    }

    method ExecuteOne(targets: seq<Target>, n: int, w: World) returns (ok: bool)
      requires Holds(targets, n) && 0 <= n < |targets|
      modifies this`units, this`freed
      ensures Holds(targets, n + 1) && units == old(units) + [ExecutedUnit(targets[n], w)]
      ensures ok <==> Executed([targets[n]], w).1 == None
    {
      hide HaveTargets, IndexOf, IsDone, IsOpen, AreBound, AreDone, Executed, ExecutedUnit, HasKeys;
      var result, failure := ExecutePreparedTargets([targets[n]], w);
      HoldsKeys(targets, n);
      OneRun(targets, n, w);
      OneUnit(result.units);
      DoneByUnit(targets, n, observer.prepared, |observer.receipt.lines|, observer.dispositions, units,
                 result.units[0]);
      FreedStep(units, result.units[0]);
      assert units + result.units == units + [result.units[0]];
      units := units + result.units;
      freed := freed + result.freed;
      return failure == None;
    }
  }

  lemma OneRun(targets: seq<Target>, n: nat, w: World)
    requires n < |targets| && HasKeys(targets)
    ensures Executed([targets[n]], w).0 == [ExecutedUnit(targets[n], w)]
    ensures ExecutedUnit(targets[n], w).key == targets[n].key
    ensures Executed([targets[n]], w).1 ==
            if w.ended(0).Some? then w.ended(0) else UnitFor(0, targets[n], w).1
  {
    EmptyBatch([targets[n]], w);
    BatchStep([targets[n]], w, 0);
  }

  lemma KeysOfCovered(targets: seq<Target>, prepared: seq<Bound>)
    requires CoversPrepared(targets, prepared)
    ensures HasKeys(targets)
  {
  }

  lemma NextAfter(targets: seq<Target>, stop: Stop, i: nat, units: seq<Unit>, u: Unit)
    requires i < |targets| && (stop == StopCancelled || stop == StopFailed)
    requires u == if stop == StopCancelled then CancelledUnit(targets[i].key).(residual := targets[i].size)
             else FailedUnit(targets[i].key)
    ensures units + UnitsAfter(targets, stop, i) == units + [u] + UnitsAfter(targets, stop, i + 1)
  {
  }

  lemma NoneAfter(targets: seq<Target>, stop: Stop, units: seq<Unit>)
    ensures units + UnitsAfter(targets, stop, |targets|) == units
  {
  }

  lemma NothingUnanswered(targets: seq<Target>, n: nat, units: seq<Unit>)
    requires n <= |targets|
    ensures units + UnitsAfter(targets, StopUnanswered, n) == units && units + UnitsAfter(targets, GoOn, n) == units
  {
  }

  lemma NothingBefore(targets: seq<Target>, g: GuidedWorld)
    ensures UnitsBefore(targets, g, 0) == []
  {
  }

  lemma NextBefore(targets: seq<Target>, g: GuidedWorld, n: nat)
    requires n < |targets|
    ensures UnitsBefore(targets, g, n + 1) ==
            UnitsBefore(targets, g, n)
            + if !g.isSafe(n) then [FailedUnit(targets[n].key)]
              else if IsDeclined(g, n) then []
              else [ExecutedUnit(targets[n], g.world(n))]
  {
  }

  lemma NothingDisposed(targets: seq<Target>, g: GuidedWorld, prepared: seq<Bound>, dispositions: seq<Disposition>)
    requires forall i :: 0 <= i < |dispositions| ==> dispositions[i] == NoDisposition
    ensures AreDisposed(targets, g, |targets|, GoOn, 0, prepared, dispositions)
  {
  }

  lemma OneUnit(units: seq<Unit>)
    requires |units| == 1
    ensures units == [units[0]] && FreedBy(units) == units[0].freed
  {
    assert units[..0] == [];
  }

  lemma FreedStep(units: seq<Unit>, u: Unit)
    ensures FreedBy(units + [u]) == FreedBy(units) + u.freed
  {
    assert (units + [u])[..|units|] == units;
  }

  /** The line of a target with a unit shows that unit; that of a declined target is skipped, and of an unanswered one
      cancelled; and every other line is as the plan decided, or failed when safety refused it. */
  ghost predicate AreFinal(prepared: seq<Bound>, dispositions: seq<Disposition>, decisions: seq<Decision>,
                           refused: seq<int>, units: seq<Unit>, lines: seq<Line>) {
    && |lines| == |decisions| && |dispositions| == |prepared|
    && (forall n :: 0 <= n < |units| ==>
          && IndexOf(prepared, units[n].key) >= 0
          && 0 <= prepared[IndexOf(prepared, units[n].key)].id < |lines|
          && lines[prepared[IndexOf(prepared, units[n].key)].id] == Applied(units[n]))
    && (forall k :: 0 <= k < |prepared| && 0 <= prepared[k].id < |lines|
                    && !HasUnit(prepared, units, prepared[k].id) ==>
          && (dispositions[k] == Declined ==>
                lines[prepared[k].id].state == Skipped && !lines[prepared[k].id].requested)
          && (dispositions[k] == CancelledEarly ==>
                lines[prepared[k].id].state == Cancelled && lines[prepared[k].id].requested)
          && !lines[prepared[k].id].removed)
    && (forall j :: 0 <= j < |lines| && !IsBoundTo(prepared, j) ==>
          lines[j] == if j in refused || decisions[j] == DecidedSelected then Line(Failed, true, false, 0, None)
                      else FirstLine(decisions[j]))
  }

  lemma FinalLines(prepared: seq<Bound>, dispositions: seq<Disposition>, decisions: seq<Decision>, refused: seq<int>,
                   units: seq<Unit>, first: seq<Line>, last: seq<Line>, lines: seq<Line>)
    requires AreBound(prepared, |decisions|) && |first| == |decisions| == |last| == |lines|
    requires AreObserved(prepared, dispositions, first, last)
    requires forall i :: 0 <= i < |decisions| ==>
               if i in refused && !IsBoundTo(prepared, i) then first[i] == Line(Failed, true, false, 0, None)
               else first[i] == FirstLine(decisions[i])
    requires forall j :: 0 <= j < |lines| ==> HasUnit(prepared, units, j) || lines[j] == Settled(last[j])
    requires forall n :: 0 <= n < |units| ==>
               && IndexOf(prepared, units[n].key) >= 0
               && 0 <= prepared[IndexOf(prepared, units[n].key)].id < |lines|
               && lines[prepared[IndexOf(prepared, units[n].key)].id] == Applied(units[n])
    ensures AreFinal(prepared, dispositions, decisions, refused, units, lines)
  {
    hide IndexOf;
    assert forall j :: HasUnit(prepared, units, j) ==> IsBoundTo(prepared, j);
  }

  /** A whole guided run: whatever the answers, cancellations, validations and executor results, the receipt finds no
      identity error and is emitted, and its freed bytes are those the units freed. */
  method RunGuided(decisions: seq<Decision>, bound: seq<Bound>, refused: seq<int>, targets: seq<Target>, g: GuidedWorld)
    returns (r: GuidedReceipt, result: Result, cleaned: bool, ok: bool, emitted: bool, ghost stop: int)
    requires AreBound(bound, |decisions|) && CoversPrepared(targets, bound)
    ensures ok && emitted && result.freed == FreedBy(result.units)
    ensures IsSound(r.receipt.lines) && r.receipt.totals == TotalsOf(r.receipt.lines)
            && r.receipt.status == StatusOf(r.receipt.totals)
    ensures r.prepared == bound && |r.dispositions| == |bound| && IsCompatible(bound, r.dispositions, result.units)
    ensures IsStop(g, targets, stop)
    ensures cleaned <==>
            && (stop < |targets| ==> !g.ended(stop) && g.answer(stop) == EndOfInput)
            && forall j :: 0 <= j < stop && j < |targets| ==> PassedWell(targets, g, j)
    ensures result.units == UnitsBefore(targets, g, stop) + UnitsAfter(targets, StopKind(g, targets, stop), stop)
    ensures AreDisposed(targets, g, stop, StopKind(g, targets, stop), |targets|, bound, r.dispositions)
    ensures |r.receipt.lines| == |decisions| && AreFinal(bound, r.dispositions, decisions, refused, result.units,
                                                         r.receipt.lines)
    ensures r.receipt.totals.freed == FreedBy(Freeing(result.units))
    ensures (forall n :: 0 <= n < |result.units| ==> result.units[n].freed >= 0) ==>
              r.receipt.totals.freed == FreedBy(result.units)
  {
    hide AreBound, CoversPrepared, IsCompatible, Freeing, FreedBy, AreDone, AreDisposed, UnitsBefore,
         UnitsAfter, IsStop;
    r := new GuidedReceipt(decisions, bound, refused);
    var prompts := new GuidedLoop(r, targets);
    NothingDisposed(targets, g, bound, r.dispositions);
    cleaned, stop := prompts.Clean(targets, g);
    AllDone(targets, bound, |r.receipt.lines|, r.dispositions, prompts.units);
    result := Result(prompts.units, prompts.freed);
    ghost var last := r.receipt.lines;
    ok, emitted := r.Finish(result);
    FinalLines(bound, r.dispositions, decisions, refused, result.units, prompts.first, last, r.receipt.lines);
  }
}
