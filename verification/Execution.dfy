/** Executing prepared cleanup targets one after the other, and the units that report it. */
module Execution {
  import opened Wrappers
  import opened Ordering

  /** States of receipt lines. */
  datatype State = Pending | Protected | Reviewable | Skipped | Removed | Partial | Failed | Cancelled

  predicate IsOutcome(s: State) {
    s == Removed || s == Partial || s == Failed || s == Cancelled
  }

  /** The states a unit can report. */
  type Outcome = s: State | IsOutcome(s) witness Failed

  datatype Unit = Unit(key: string, state: Outcome, attempted: bool, removed: bool, memberRemoved: bool,
                       freed: int, residual: int)

  datatype Failure = Canceled | OtherFailure

  /** A prepared target, with what preparing it found. */
  datatype Target = Target(key: string, size: int, preparationFailed: bool, hasSafety: bool, isActive: bool,
                           hasActiveUnit: bool)

  /** What executing one target did, and how it failed if it did. */
  datatype Attempt = Attempt(state: Outcome, attempted: bool, removed: bool, memberRemoved: bool,
                             freed: int, residual: int, failure: Option<Failure>)

  /** The world during one batch: whether and how the context has ended before each target, and what executing it
      does. */
  datatype World = World(ended: int -> Option<Failure>, attempt: (int, Target) -> Attempt)

  datatype Result = Result(units: seq<Unit>, freed: int)

  predicate HasMutation(u: Unit) {
    u.removed || u.memberRemoved
  }

  function FailedUnit(key: string): Unit {
    Unit(key, Failed, false, false, false, 0, 0)
  }

  function CancelledUnit(key: string): Unit {
    FailedUnit(key).(state := Cancelled)
  }

  function UnitOf(key: string, a: Attempt): Unit {
    Unit(key, a.state, a.attempted, a.removed, a.memberRemoved, a.freed, a.residual)
  }

  function FreedBy(units: seq<Unit>): int {
    if units == [] then 0 else FreedBy(units[..|units| - 1]) + units[|units| - 1].freed
  }

  /** What units freed together is what the parts did; each counts with its own freed bytes, and what was not attempted
      freed nothing. */
  lemma {:induction false} FreedIsASum(a: seq<Unit>, b: seq<Unit>)
    ensures FreedBy(a + b) == FreedBy(a) + FreedBy(b) && FreedBy([]) == 0
    ensures forall u :: FreedBy([u]) == u.freed
    ensures forall key: string :: FreedBy([FailedUnit(key)]) == 0 && FreedBy([CancelledUnit(key)]) == 0
  {
    assert forall u :: FreedBy([u][..0]) == 0;
    LastOfBoth(a, b);
    if b != [] {
      FreedIsASum(a, b[..|b| - 1]);
    }
  }

  /** The units made without an attempt. */
  lemma UnattemptedUnits(key: string)
    ensures var f, c := FailedUnit(key), CancelledUnit(key);
            && f.key == key == c.key && f.state == Failed && c.state == Cancelled && !f.attempted && !c.attempted
            && !HasMutation(f) && !HasMutation(c) && f.freed == 0 == c.freed && f.residual == 0 == c.residual
    ensures forall u :: HasMutation(u) <==> u.removed || u.memberRemoved
  {
  }

  predicate HasKeys(targets: seq<Target>) {
    && (forall i :: 0 <= i < |targets| ==> targets[i].key != "")
    && (forall i, j :: 0 <= i < j < |targets| ==> targets[i].key != targets[j].key)
  }

  // ----- one target

  /** The target was prepared, has safety evidence, and evidence of its activity when it is active. */
  predicate MayExecute(t: Target) {
    !t.preparationFailed && t.hasSafety && (t.isActive ==> t.hasActiveUnit)
  }

  /** The attempt was cancelled before it touched anything. */
  predicate WasCutShort(a: Attempt) {
    a.failure == Some(Canceled) && !a.attempted && a.state == Failed && !a.removed && !a.memberRemoved
  }

  /** The unit of one target, and whether and how it failed. */
  function UnitFor(i: int, t: Target, w: World): (Unit, Option<Failure>) {
    if !MayExecute(t) then (FailedUnit(t.key), Some(OtherFailure))
    else
      var a := w.attempt(i, t);
      (if WasCutShort(a) then UnitOf(t.key, a).(state := Cancelled) else UnitOf(t.key, a), a.failure)
  }

  /** An unprepared, unsafe or evidence-less target fails without an attempt, a removal or a freed byte. Any other is
      reported as its attempt went, and as cancelled exactly when the attempt said so or was cut short. */
  method RunTarget(i: int, t: Target, w: World) returns (r: (Unit, Option<Failure>))
    ensures r == UnitFor(i, t, w) && r.0.key == t.key
    ensures t.preparationFailed || !t.hasSafety || (t.isActive && !t.hasActiveUnit) ==>
              && r.0.state == Failed && r.1 == Some(OtherFailure)
              && !r.0.attempted && !HasMutation(r.0) && r.0.freed == 0
    ensures MayExecute(t) ==>
              var a := w.attempt(i, t);
              && r.1 == a.failure && r.0.attempted == a.attempted && r.0.removed == a.removed
              && r.0.memberRemoved == a.memberRemoved && r.0.freed == a.freed && r.0.residual == a.residual
              && (r.0.state == a.state || (r.0.state == Cancelled && a.state == Failed))
    ensures r.0.state == Cancelled <==>
            && !t.preparationFailed && t.hasSafety && (t.isActive ==> t.hasActiveUnit)
            && var a := w.attempt(i, t);
            || a.state == Cancelled
            || (a.failure == Some(Canceled) && a.state == Failed && !a.attempted && !a.removed && !a.memberRemoved)
    ensures r.0.state == Cancelled && w.attempt(i, t).state != Cancelled ==>
              r.1 == Some(Canceled) && !r.0.attempted && !HasMutation(r.0)
  {
    if t.preparationFailed {
      return (FailedUnit(t.key), Some(OtherFailure));
    }
    if !t.hasSafety {
      return (FailedUnit(t.key), Some(OtherFailure));
    }
    if t.isActive && !t.hasActiveUnit {
      return (FailedUnit(t.key), Some(OtherFailure));
    }
    var a := w.attempt(i, t);
    var u := UnitOf(t.key, a);
    if a.failure == Some(Canceled) && !u.attempted && u.state == Failed && !HasMutation(u) {
      u := u.(state := Cancelled);
    }
    return (u, a.failure);
  }

  // ----- a batch

  /** How far a batch has come: still running, perhaps with failed targets, or ended by a cancelled attempt or an ended
      context. */
  datatype BatchState = Running(failed: bool) | Ended(failure: Failure)

  /** The progress of a batch before target n. */
  function ProgressAt(targets: seq<Target>, w: World, n: nat): BatchState
    requires n <= |targets|
  {
    if n == 0 then Running(false)
    else
      match ProgressAt(targets, w, n - 1)
      case Ended(f) => Ended(f)
      case Running(failed) =>
        match w.ended(n - 1)
        case Some(f) => Ended(f)
        case None =>
          match UnitFor(n - 1, targets[n - 1], w).1
          case None => Running(failed)
          case Some(f) => if f == Canceled then Ended(f) else Running(true)
  }

  predicate IsExecuted(targets: seq<Target>, w: World, i: nat)
    requires i < |targets|
  {
    ProgressAt(targets, w, i).Running? && w.ended(i) == None
  }

  function UnitAt(targets: seq<Target>, w: World, i: nat): (u: Unit)
    requires i < |targets|
    ensures u.key == targets[i].key
  {
    if IsExecuted(targets, w, i) then UnitFor(i, targets[i], w).0 else CancelledUnit(targets[i].key)
  }

  function UnitsUpTo(targets: seq<Target>, w: World, n: nat): (units: seq<Unit>)
    requires n <= |targets|
    ensures |units| == n && forall i :: 0 <= i < n ==> units[i].key == targets[i].key
  {
    seq(n, i requires 0 <= i < n => UnitAt(targets, w, i))
  }

  function FailureOf(p: BatchState): Option<Failure> {
    match p
    case Running(failed) => if failed then Some(OtherFailure) else None
    case Ended(f) => Some(f)
  }

  /** The units of a whole batch, and how it failed; one with empty or repeated keys is refused. */
  function Executed(targets: seq<Target>, w: World): (seq<Unit>, Option<Failure>) {
    if !HasKeys(targets) then ([], Some(OtherFailure))
    else (UnitsUpTo(targets, w, |targets|), FailureOf(ProgressAt(targets, w, |targets|)))
  }

  method CheckKeys(targets: seq<Target>) returns (ok: bool)
    ensures ok <==> HasKeys(targets)
  {
    var keys: set<string> := {};
    for i := 0 to |targets|
      invariant forall k :: k in keys <==> exists j :: 0 <= j < i && targets[j].key == k
      invariant HasKeys(targets[..i])
    {
      if targets[i].key == "" || targets[i].key in keys {
        return false;
      }
      keys := keys + {targets[i].key};
    }
    assert targets[..|targets|] == targets;
    return true;
  }

  /** A batch without empty or repeated keys gives every target exactly one unit, in order, and loses no freed byte. */
  method ExecutePreparedTargets(targets: seq<Target>, w: World) returns (result: Result, failure: Option<Failure>)
    ensures (result.units, failure) == Executed(targets, w)
    ensures result.freed == FreedBy(result.units)
    ensures HasKeys(targets) ==>
              |result.units| == |targets| && forall i :: 0 <= i < |targets| ==> result.units[i].key == targets[i].key
  {
    hide HasKeys, UnitFor, UnitAt, ProgressAt;
    result := Result([], 0);
    var valid := CheckKeys(targets);
    if !valid {
      return Result([], 0), Some(OtherFailure);
    }
    var failed := false;
    EmptyBatch(targets, w);
    for i := 0 to |targets|
      invariant result.units == UnitsUpTo(targets, w, i) && result.freed == FreedBy(result.units)
      invariant ProgressAt(targets, w, i) == Running(failed)
    {
      BatchStep(targets, w, i);
      var ended := w.ended(i);
      if ended.Some? {
        result := CancelRest(targets, w, i, result);
        return result, ended;
      }
      var r := RunTarget(i, targets[i], w);
      result := Result(result.units + [r.0], result.freed + r.0.freed);
      if r.1.Some? {
        failed := true;
        if r.1.value == Canceled {
          result := CancelRest(targets, w, i + 1, result);
          return result, Some(Canceled);
        }
      }
    }
    return result, if failed then Some(OtherFailure) else None;
  }

  /** The rest of an ended batch is reported as cancelled. */
  method CancelRest(targets: seq<Target>, w: World, n: nat, before: Result) returns (result: Result)
    requires n <= |targets| && before.units == UnitsUpTo(targets, w, n) && before.freed == FreedBy(before.units)
    requires ProgressAt(targets, w, n).Ended? || (n < |targets| && !IsExecuted(targets, w, n) && w.ended(n).Some?)
    ensures result.units == UnitsUpTo(targets, w, |targets|) && result.freed == FreedBy(result.units)
    ensures n < |targets| && ProgressAt(targets, w, n).Running? ==>
              ProgressAt(targets, w, |targets|) == Ended(w.ended(n).value)
    ensures ProgressAt(targets, w, n).Ended? ==> ProgressAt(targets, w, |targets|) == ProgressAt(targets, w, n)
  {
    hide ProgressAt, UnitsUpTo, UnitAt, UnitFor, FreedBy;
    result := before;
    for j := n to |targets|
      invariant result.units == UnitsUpTo(targets, w, j) && result.freed == FreedBy(result.units)
      invariant j == n || ProgressAt(targets, w, j) ==
                          if ProgressAt(targets, w, n).Ended? then ProgressAt(targets, w, n)
                            else Ended(w.ended(n).value)
    {
      BatchStep(targets, w, j);
      assert !IsExecuted(targets, w, j);
      result := result.(units := result.units + [CancelledUnit(targets[j].key)]);
    }
  }

  lemma EmptyBatch(targets: seq<Target>, w: World)
    ensures ProgressAt(targets, w, 0) == Running(false) && UnitsUpTo(targets, w, 0) == []
  {
  }

  lemma BatchStep(targets: seq<Target>, w: World, i: nat)
    requires i < |targets|
    ensures UnitsUpTo(targets, w, i + 1) == UnitsUpTo(targets, w, i) + [UnitAt(targets, w, i)]
    ensures FreedBy(UnitsUpTo(targets, w, i + 1)) == FreedBy(UnitsUpTo(targets, w, i)) + UnitAt(targets, w, i).freed
    ensures IsExecuted(targets, w, i) ==> UnitAt(targets, w, i) == UnitFor(i, targets[i], w).0
    ensures !IsExecuted(targets, w, i) ==> UnitAt(targets, w, i) == CancelledUnit(targets[i].key)
    ensures ProgressAt(targets, w, i + 1) ==
            match ProgressAt(targets, w, i)
            case Ended(f) => Ended(f)
            case Running(failed) =>
              match w.ended(i)
              case Some(f) => Ended(f)
              case None =>
                match UnitFor(i, targets[i], w).1
                case None => Running(failed)
                case Some(f) => if f == Canceled then Ended(f) else Running(true)
  {
    hide UnitFor;
    var units, u := UnitsUpTo(targets, w, i), UnitAt(targets, w, i);
    assert (units + [u])[..i] == units;
    assert UnitsUpTo(targets, w, i + 1) == units + [u];
  }

  // ----- what a batch did

  /** A batch still runs before target n exactly when the context held and no attempt was cancelled before it; it has
      failures exactly when some target before n failed. */
  lemma {:induction false} RunsOn(targets: seq<Target>, w: World, n: nat)
    requires n <= |targets|
    ensures ProgressAt(targets, w, n).Running? <==>
            forall j :: 0 <= j < n ==> w.ended(j) == None && UnitFor(j, targets[j], w).1 != Some(Canceled)
    ensures ProgressAt(targets, w, n) == Running(false) <==>
            forall j :: 0 <= j < n ==> w.ended(j) == None && UnitFor(j, targets[j], w).1 == None
  {
    hide UnitFor;
    if n > 0 {
      RunsOn(targets, w, n - 1);
    }
  }

  /** A batch reports no failure exactly when the context held throughout and every target was executed without one. */
  lemma BatchSucceeds(targets: seq<Target>, w: World)
    ensures Executed(targets, w).1 == None <==>
            HasKeys(targets)
            && forall i :: 0 <= i < |targets| ==> w.ended(i) == None && UnitFor(i, targets[i], w).1 == None
  {
    hide UnitFor;
    RunsOn(targets, w, |targets|);
  }

  /** The batch stopped before target i: the context had ended by then, or an earlier attempt was cancelled. */
  ghost predicate IsStopped(targets: seq<Target>, w: World, i: nat)
    requires i < |targets|
  {
    (exists j :: 0 <= j <= i && w.ended(j).Some?)
    || exists j :: 0 <= j < i && UnitFor(j, targets[j], w).1 == Some(Canceled)
  }

  /** A unit is reported as cancelled exactly when the batch had stopped, or its own attempt said so or was cut short.
      Without an attempt that says so, a cancelled unit attempted nothing and removed nothing; and once the batch has
      stopped nothing more is attempted, removed or freed. */
  lemma CancelledUnitsDidNothing(targets: seq<Target>, w: World, i: nat)
    requires HasKeys(targets) && i < |targets|
    ensures var u, a := Executed(targets, w).0[i], w.attempt(i, targets[i]);
            && (u.state == Cancelled <==>
                IsStopped(targets, w, i) || (MayExecute(targets[i]) && (a.state == Cancelled || WasCutShort(a))))
            && (u.state == Cancelled && a.state != Cancelled ==> !u.attempted && !HasMutation(u))
            && (IsStopped(targets, w, i) ==> u == CancelledUnit(targets[i].key))
  {
    RunsOn(targets, w, i);
    assert IsExecuted(targets, w, i) <==> !IsStopped(targets, w, i) by {
      hide UnitFor;
    }
  }
}
