/** What receipts mean, said of targets, units and answers one by one. */
module ReceiptTheorems {
  import opened Wrappers
  import opened PathKeys
  import opened Execution
  import opened Receipts
  import opened ReceiptExecution
  import G = GuidedReceipts

  // ----- one outcome each

  lemma CountOneOrMore(units: seq<Unit>, key: string)
    ensures G.CountFor(units, key) <= 1 <==>
            forall m, n :: 0 <= m < n < |units| && units[m].key == key ==> units[n].key != key
  {
    hide *;
    if forall m, n :: 0 <= m < n < |units| && units[m].key == key ==> units[n].key != key {
      AtMostOne(units, key);
    } else {
      var m, n :| 0 <= m < n < |units| && units[m].key == key == units[n].key;
      AtLeastTwo(units, key, m, n);
    }
  }

  lemma {:induction false} AtMostOne(units: seq<Unit>, key: string)
    requires forall m, n :: 0 <= m < n < |units| && units[m].key == key ==> units[n].key != key
    ensures G.CountFor(units, key) <= 1
  {
    if units != [] {
      var front := units[..|units| - 1];
      AtMostOne(front, key);
      G.CountMeans(front, key);
    }
  }

  lemma {:induction false} AtLeastTwo(units: seq<Unit>, key: string, m: int, n: int)
    requires 0 <= m < n < |units| && units[m].key == key == units[n].key
    ensures G.CountFor(units, key) >= 2
  {
    var front := units[..|units| - 1];
    if n < |front| {
      AtLeastTwo(front, key, m, n);
    } else {
      assert front[m].key == key;
      G.CountMeans(front, key);
    }
  }

  /** The unit is for target i and fits what was observed of it: nothing, or a cancellation before anything was done. */
  ghost predicate Fits(prepared: seq<G.Bound>, dispositions: seq<G.Disposition>, i: int, u: Unit) {
    && 0 <= i < |prepared| && i < |dispositions| && prepared[i].key == u.key
    && (dispositions[i] == G.NoDisposition
        || (dispositions[i] == G.CancelledEarly && u.state == Cancelled && !u.attempted && !u.removed && u.freed == 0))
  }

  ghost predicate FitsSome(prepared: seq<G.Bound>, dispositions: seq<G.Disposition>, u: Unit) {
    exists i :: Fits(prepared, dispositions, i, u)
  }

  /** Outcomes are compatible exactly when each unit fits a target, no target has two, and each target that was not
      observed has one; so a declined target has none. */
  lemma CompatibleExactly(prepared: seq<G.Bound>, lines: int, dispositions: seq<G.Disposition>, units: seq<Unit>)
    requires G.AreBound(prepared, lines) && |dispositions| == |prepared|
    ensures G.IsCompatible(prepared, dispositions, units) <==>
            && (forall n :: 0 <= n < |units| ==> FitsSome(prepared, dispositions, units[n]))
            && (forall m, n :: 0 <= m < n < |units| ==> units[m].key != units[n].key)
            && (forall i :: 0 <= i < |prepared| && dispositions[i] == G.NoDisposition ==>
                  exists n :: 0 <= n < |units| && units[n].key == prepared[i].key)
  {
    FitsExactly(prepared, lines, dispositions, units);
    CountsExactly(prepared, units);
    hide FitsSome, G.Agrees, G.CountFor, G.AreBound;
    if G.IsCompatible(prepared, dispositions, units) {
      forall m, n | 0 <= m < n < |units| ensures units[m].key != units[n].key {
        var i := G.IndexOf(prepared, units[m].key);
        assert prepared[i].key == units[m].key;
      }
      forall i | 0 <= i < |prepared| && dispositions[i] == G.NoDisposition
        ensures exists n :: 0 <= n < |units| && units[n].key == prepared[i].key
      {
        assert G.CountFor(units, prepared[i].key) == 1;
      }
    } else if G.HaveTargets(prepared, dispositions, units) {
      var i :| 0 <= i < |prepared| && dispositions[i] == G.NoDisposition && G.CountFor(units, prepared[i].key) != 1;
      assert G.CountFor(units, prepared[i].key) <= 1;
    }
  }

  lemma CountsExactly(prepared: seq<G.Bound>, units: seq<Unit>)
    ensures forall i :: 0 <= i < |prepared| ==>
              (G.CountFor(units, prepared[i].key) <= 1 <==>
               forall m, n :: 0 <= m < n < |units| && units[m].key == prepared[i].key ==> units[n].key != units[m].key)
    ensures forall i :: 0 <= i < |prepared| ==>
              (G.CountFor(units, prepared[i].key) > 0 <==>
               exists n :: 0 <= n < |units| && units[n].key == prepared[i].key)
  {
    hide G.CountFor;
    forall i | 0 <= i < |prepared|
      ensures G.CountFor(units, prepared[i].key) <= 1 <==>
              forall m, n :: 0 <= m < n < |units| && units[m].key == prepared[i].key ==> units[n].key != units[m].key
      ensures G.CountFor(units, prepared[i].key) > 0 <==>
              exists n :: 0 <= n < |units| && units[n].key == prepared[i].key
    {
      CountOneOrMore(units, prepared[i].key);
      G.CountMeans(units, prepared[i].key);
    }
  }

  /** What was observed of a target allows a unit: nothing was, or a cancellation and the unit did nothing. */
  lemma AgreesMeans(d: G.Disposition, u: Unit)
    ensures G.Agrees(d, u) <==>
            || d == G.NoDisposition
            || (d == G.CancelledEarly && u.state == Cancelled && !u.attempted && !u.removed && u.freed == 0)
  {
  }

  lemma FitsAt(prepared: seq<G.Bound>, dispositions: seq<G.Disposition>, i: int, u: Unit)
    requires 0 <= i < |prepared| == |dispositions| && prepared[i].key == u.key
    ensures Fits(prepared, dispositions, i, u) <==> G.Agrees(dispositions[i], u)
  {
    AgreesMeans(dispositions[i], u);
  }

  lemma FitsOnlyOne(prepared: seq<G.Bound>, lines: int, dispositions: seq<G.Disposition>, u: Unit)
    requires G.AreBound(prepared, lines) && |dispositions| == |prepared|
    ensures FitsSome(prepared, dispositions, u) <==>
            && u.key != "" && G.IndexOf(prepared, u.key) >= 0
            && G.Agrees(dispositions[G.IndexOf(prepared, u.key)], u)
  {
    hide G.Agrees, G.AreBound, Fits;
    var k := G.IndexOf(prepared, u.key);
    if i :| Fits(prepared, dispositions, i, u) {
      FitsHasKey(prepared, lines, dispositions, i, u);
      G.IndexIs(prepared, i, lines);
      FitsAt(prepared, dispositions, i, u);
    }
    if k >= 0 && G.Agrees(dispositions[k], u) {
      FitsAt(prepared, dispositions, k, u);
    }
  }

  lemma FitsHasKey(prepared: seq<G.Bound>, lines: int, dispositions: seq<G.Disposition>, i: int, u: Unit)
    requires G.AreBound(prepared, lines) && Fits(prepared, dispositions, i, u)
    ensures 0 <= i < |prepared| && prepared[i].key == u.key != ""
  {
  }

  lemma FitsExactly(prepared: seq<G.Bound>, lines: int, dispositions: seq<G.Disposition>, units: seq<Unit>)
    requires G.AreBound(prepared, lines) && |dispositions| == |prepared|
    ensures forall n :: 0 <= n < |units| ==>
              (FitsSome(prepared, dispositions, units[n]) <==>
               && units[n].key != "" && G.IndexOf(prepared, units[n].key) >= 0
               && G.Agrees(dispositions[G.IndexOf(prepared, units[n].key)], units[n]))
  {
    hide G.AreBound, G.Agrees, FitsSome;
    forall n | 0 <= n < |units|
      ensures FitsSome(prepared, dispositions, units[n]) <==>
              && units[n].key != "" && G.IndexOf(prepared, units[n].key) >= 0
              && G.Agrees(dispositions[G.IndexOf(prepared, units[n].key)], units[n])
    {
      FitsOnlyOne(prepared, lines, dispositions, units[n]);
    }
  }

  /** An execution is evidence exactly when it freed something, or some unit was attempted, removed something, freed
      something, or says it did. */
  lemma EvidenceMeans(execution: Result)
    ensures G.HasProgressed(execution) <==>
            execution.freed > 0
            || exists n :: 0 <= n < |execution.units| && ShowsProgress(execution.units[n])
    ensures G.HasMutated(execution) <==>
            execution.freed > 0
            || exists n :: 0 <= n < |execution.units|
                           && (execution.units[n].attempted || ShowsProgress(execution.units[n]))
  {
    assert forall u :: G.UnitProgressed(u) <==> ShowsProgress(u);
    hide G.UnitProgressed, ShowsProgress;
  }

  predicate ShowsProgress(u: Unit) {
    u.removed || u.memberRemoved || u.freed > 0 || u.state == Removed || u.state == Partial
  }

  // ----- the guided loop

  /** How a prompt ends the guided loop. */
  lemma GuidedStops(g: G.GuidedWorld, i: int)
    ensures G.StopAt(g, i) == G.StopCancelled <==>
            g.ended(i) || (g.isSafe(i) && ((g.answer(i) == G.InputFailed && g.endedReading(i))
                                           || (g.answer(i) == G.Approved && g.validation(i) == G.ValidationCanceled)))
    ensures G.StopAt(g, i) == G.StopFailed <==>
            !g.ended(i) && g.isSafe(i) && g.answer(i) == G.Approved && g.validation(i) == G.Invalid
    ensures G.StopAt(g, i) == G.StopUnanswered <==>
            !g.ended(i) && g.isSafe(i)
            && (g.answer(i) == G.EndOfInput || (g.answer(i) == G.InputFailed && !g.endedReading(i)))
  {
  }

  /** The unit target i is to have: as failed when it is unsafe, none when it was declined, as executed when it was
      approved, and behind the stop as cancelled or failed, or none when the prompt went unanswered. */
  ghost predicate IsUnitOf(targets: seq<Target>, g: G.GuidedWorld, stop: int, i: int, u: Unit) {
    && 0 <= i < |targets|
    && if i >= stop then
         || (G.StopAt(g, stop) == G.StopCancelled
             && u == Unit(targets[i].key, Cancelled, false, false, false, 0, targets[i].size))
         || (G.StopAt(g, stop) == G.StopFailed && u == Unit(targets[i].key, Failed, false, false, false, 0, 0))
       else if !g.isSafe(i) then u == Unit(targets[i].key, Failed, false, false, false, 0, 0)
       else
         && g.answer(i) != G.Refused
         && if g.world(i).ended(0).Some? then u == Unit(targets[i].key, Cancelled, false, false, false, 0, 0)
            else u == UnitFor(0, targets[i], g.world(i)).0
  }

  lemma {:induction false} BeforeAre(targets: seq<Target>, g: G.GuidedWorld, stop: int, n: nat, u: Unit)
    requires n <= |targets| && n <= stop
    ensures u in G.UnitsBefore(targets, g, n) <==> exists i :: 0 <= i < n && IsUnitOf(targets, g, stop, i, u)
  {
    hide UnitFor;
    if n > 0 {
      BeforeAre(targets, g, stop, n - 1, u);
      G.NextBefore(targets, g, n - 1);
      assert u in G.UnitsBefore(targets, g, n) <==>
             u in G.UnitsBefore(targets, g, n - 1) || IsUnitOf(targets, g, stop, n - 1, u);
    }
  }

  lemma {:induction false} AfterAre(targets: seq<Target>, g: G.GuidedWorld, stop: int, n: nat, u: Unit)
    requires 0 <= stop <= n <= |targets| && stop < |targets|
    ensures u in G.UnitsAfter(targets, G.StopAt(g, stop), n) <==>
            exists i :: n <= i < |targets| && IsUnitOf(targets, g, stop, i, u)
    decreases |targets| - n
  {
    hide UnitFor, G.StopAt;
    if n < |targets| {
      AfterAre(targets, g, stop, n + 1, u);
      var kind := G.StopAt(g, stop);
      if kind == G.StopCancelled || kind == G.StopFailed {
        assert u in G.UnitsAfter(targets, kind, n) <==>
               u in G.UnitsAfter(targets, kind, n + 1) || IsUnitOf(targets, g, stop, n, u);
      } else {
        assert G.UnitsAfter(targets, kind, n) == [];
      }
    }
  }

  /** The units of a guided run are those its targets are to have. */
  lemma GuidedUnitsAre(targets: seq<Target>, g: G.GuidedWorld, stop: int, u: Unit)
    requires G.IsStop(g, targets, stop)
    ensures var units := G.UnitsBefore(targets, g, stop) + G.UnitsAfter(targets, G.StopKind(g, targets, stop), stop);
            u in units <==> exists i :: IsUnitOf(targets, g, stop, i, u)
  {
    BeforeAre(targets, g, stop, stop, u);
    hide IsUnitOf, G.UnitsBefore;
    if stop < |targets| {
      AfterAre(targets, g, stop, stop, u);
    }
    assert forall i :: IsUnitOf(targets, g, stop, i, u) ==> 0 <= i < |targets| by {
      IsUnitOfTarget(targets, g, stop, u);
    }
  }

  lemma IsUnitOfTarget(targets: seq<Target>, g: G.GuidedWorld, stop: int, u: Unit)
    ensures forall i :: IsUnitOf(targets, g, stop, i, u) ==> 0 <= i < |targets|
  {
  }

  /** The guided loop passes a target well when it is safe, and was declined or executed without a failure while the
      context held. */
  lemma PassedWellMeans(targets: seq<Target>, g: G.GuidedWorld, i: nat)
    requires HasKeys(targets) && i < |targets|
    ensures G.PassedWell(targets, g, i) <==>
            && g.isSafe(i)
            && (g.answer(i) == G.Refused
                || (g.world(i).ended(0) == None && UnitFor(0, targets[i], g.world(i)).1 == None))
  {
    G.OneRun(targets, i, g.world(i));
    hide UnitFor, Executed, G.ExecutedUnit;
  }

  /** A target is observed as declined when it was safe and refused before the stop, and as cancelled from the stop on
      when the run was cancelled or went unanswered. */
  lemma GuidedDispositions(g: G.GuidedWorld, i: int, stop: int, kind: G.Stop)
    ensures var d := G.DispositionFor(g, i, stop, kind);
            && (d == G.Declined <==> i < stop && g.isSafe(i) && g.answer(i) == G.Refused)
            && (d == G.CancelledEarly <==> i >= stop && (kind == G.StopCancelled || kind == G.StopUnanswered))
  {
  }

  // ----- the receipt's own loop

  /** How a prompt of the receipt stops its loop: everything but a clear answer cancels, and an approval may be refused
      by validation. */
  lemma PromptStops(s: Surroundings, i: int)
    ensures StopState(s, i) == None <==>
            !s.ended(i) && (s.scan(i) == No || (s.scan(i) == Yes && s.validation(i) == G.Validation.Valid))
    ensures StopState(s, i) == Some(Failed) <==>
            !s.ended(i) && s.scan(i) == Yes && s.validation(i) == G.Invalid
    ensures StopState(s, i).Some? ==> StopState(s, i).value in {Failed, Cancelled}
  {
  }

  /** What becomes of the targets that were not executed: declined ones are skipped, the one validation refused fails,
      and every other from the stop on is cancelled. */
  lemma LeftStates(s: Surroundings, i: int, stop: Stop)
    ensures StateFor(s, i, stop) == Skipped <==> i < stop.number
    ensures StateFor(s, i, stop) == Failed <==>
            i == stop.number && stop.answering && !s.ended(i) && s.scan(i) == Yes && s.validation(i) == G.Invalid
    ensures StateFor(s, i, stop) in {Skipped, Failed, Cancelled}
  {
  }

  /** A target can be bound exactly when its key is there and unchanged, and its path is that of a line. */
  lemma CanBindMeans(keys: seq<PathKey>, p: Prepared)
    ensures CanBind(keys, p) <==> p.key != "" && p.key == p.itemKey && p.path.Some? && p.path.value in keys
    ensures LineOf(keys, p.path) >= 0 ==>
              LineOf(keys, p.path) < |keys| && p.path == Some(keys[LineOf(keys, p.path)])
  {
    if p.path.Some? && p.path.value in keys {
      assert PositionOf(keys, p.path.value) != -1;
    }
  }

  /** The units of a run are those of the approved targets it passed. */
  lemma {:induction false} ApprovedUnitsAre(s: Surroundings, bound: seq<Bound>, n: nat, u: Unit)
    requires n <= |bound|
    ensures u in UnitsBefore(s, bound, n) <==>
            exists i :: 0 <= i < n && s.scan(i) == Yes && u in s.execute(i, [bound[i].key]).0
  {
    if n > 0 {
      ApprovedUnitsAre(s, bound, n - 1, u);
      NextUnits(s, bound, n - 1);
    }
  }

  /** A run that was cut short is reported without an error exactly when it was for want of a reader, and one that was
      not exactly when every approved target was executed without a failure. */
  lemma RunEndsWell(s: Surroundings, bound: seq<Bound>, stop: Stop)
    requires 0 <= stop.number <= |bound|
    ensures stop.number < |bound| ==>
              (EndsWell(s, bound, stop) <==> stop.answering && !s.ended(stop.number) && s.scan(stop.number) == NoReader)
    ensures stop.number == |bound| ==>
              (EndsWell(s, bound, stop) <==>
               forall i :: 0 <= i < |bound| && s.scan(i) == Yes ==> s.execute(i, [bound[i].key]).1 == None)
  {
    forall i | 0 <= i < |bound|
      ensures ExecutesWell(s, bound, i) <==> (s.scan(i) == Yes ==> s.execute(i, [bound[i].key]).1 == None)
    {
    }
    hide ExecutesWell;
  }

  /** A batch ends without an error exactly when it was approved or forced, validated, and executed without a
      failure. */
  lemma WholeBatchEndsWell(s: Surroundings, force: bool, bound: seq<Bound>)
    ensures BatchEndsWell(s, force, bound) <==>
            && (force || s.scan(0) == Yes) && s.validation(0) == G.Validation.Valid
            && s.execute(0, KeysOf(bound)).1 == None
  {
  }

  /** Executing one target by itself ends the run exactly when it was approved and its execution was cancelled. */
  lemma CancelledExecutionStops(s: Surroundings, i: int, key: string)
    ensures StopsAfter(s, i, key) <==>
            && !s.ended(i) && s.scan(i) == Yes && s.validation(i) == G.Validation.Valid
            && s.execute(i, [key]).1 == Some(Canceled)
  {
  }
}
