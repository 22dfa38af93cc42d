/** The execution receipt: its lines, how marks and units change them, and how it is finalized. */
module Receipts {
  import opened Wrappers
  import opened Ordering
  import opened Execution

  datatype Decision = DecidedSelected | DecidedProtected | DecidedReviewable | DecidedSkipped

  /** One physical target of the receipt. */
  datatype Line = Line(state: State, requested: bool, removed: bool, freed: int, residual: Option<int>)

  datatype Status = StatusPending | Succeeded | PartialFailure | StatusFailed | StatusCancelled

  datatype Totals = Totals(requested: int, removed: int, partial: int, failed: int, cancelled: int,
                           guarded: int, reviewable: int, skipped: int, freed: int)

  /** A line was requested exactly when it has an outcome; no line freed a negative amount. */
  ghost predicate IsSound(lines: seq<Line>) {
    forall i :: 0 <= i < |lines| ==> (lines[i].requested <==> IsOutcome(lines[i].state)) && 0 <= lines[i].freed
  }

  function FirstLine(d: Decision): Line {
    Line(match d
         case DecidedSelected => Pending
         case DecidedProtected => Protected
         case DecidedReviewable => Reviewable
         case DecidedSkipped => Skipped, false, false, 0, None)
  }

  function Marked(line: Line, state: State, requested: bool): Line {
    line.(state := state, requested := requested, removed := false, freed := 0)
  }

  function NonNegative(n: int): int {
    if n < 0 then 0 else n
  }

  function Applied(u: Unit): Line {
    Line(u.state, IsOutcome(u.state), u.removed, NonNegative(u.freed), if u.removed then None else Some(u.residual))
  }

  /** A line shows what its unit did, with its own freed bytes unless they are negative. */
  lemma AppliedShows(u: Unit)
    ensures var line := Applied(u);
            && line.state == u.state && line.requested && line.removed == u.removed
            && (u.freed >= 0 ==> line.freed == u.freed) && (u.freed < 0 ==> line.freed == 0)
            && (u.removed ==> line.residual == None) && (!u.removed ==> line.residual == Some(u.residual))
  {
  }

  /** A mark changes state and request and takes back removal and freed bytes; a settled line is marked as failed
      exactly when it is pending. */
  lemma MarkedShows(line: Line, state: State, requested: bool)
    ensures Marked(line, state, requested) == Line(state, requested, false, 0, line.residual)
    ensures line.state == Pending ==> Settled(line) == Line(Failed, true, false, 0, line.residual)
    ensures line.state != Pending ==> Settled(line) == line
  {
  }

  /** A selected target's line is pending, any other's is as decided; nothing is requested, removed or freed yet. */
  lemma FirstLineShows(d: Decision)
    ensures FirstLine(d) == Line(FirstLine(d).state, false, false, 0, None)
    ensures FirstLine(d).state == Pending <==> d == DecidedSelected
    ensures FirstLine(d).state == Protected <==> d == DecidedProtected
    ensures FirstLine(d).state == Reviewable <==> d == DecidedReviewable
    ensures FirstLine(d).state == Skipped <==> d == DecidedSkipped
  {
  }

  // ----- residuals

  /** Measured sizes of surviving targets, and survivors whose size was not measured. */
  datatype Residuals = Residuals(known: map<int, int>, unknown: set<int>)

  function MeasuredResidual(u: Unit): Option<int> {
    if u.removed || u.residual < 0 then None
    else if u.residual > 0 || u.freed > 0 || u.state == Removed then Some(u.residual)
    else None
  }

  predicate ResidualUnknown(u: Unit) {
    !u.removed && MeasuredResidual(u) == None && (u.attempted || u.state == Partial || u.residual < 0)
  }

  function Noted(r: Residuals, id: int, u: Unit): Residuals {
    if u.removed then Residuals(r.known - {id}, r.unknown - {id})
    else if MeasuredResidual(u).Some? then
      var m := MeasuredResidual(u).value;
      Residuals(if id !in r.known || m > r.known[id] then r.known[id := m] else r.known, r.unknown - {id})
    else if ResidualUnknown(u) && id !in r.known then r.(unknown := r.unknown + {id})
    else r
  }

  /** No target is both measured and unmeasured. */
  ghost predicate AreDisjoint(r: Residuals) {
    forall id :: id in r.known ==> id !in r.unknown
  }

  /** Noting a unit keeps the two kinds apart, touches one target only, forgets a removed one, and never lowers a
      measurement. */
  lemma NotingIsLocal(r: Residuals, id: int, u: Unit)
    requires AreDisjoint(r)
    ensures var n := Noted(r, id, u);
            && AreDisjoint(n)
            && (forall o :: o != id ==> (o in n.known <==> o in r.known) && (o in n.unknown <==> o in r.unknown)
                                        && (o in r.known ==> n.known[o] == r.known[o]))
            && (u.removed ==> id !in n.known && id !in n.unknown)
            && (!u.removed && id in r.known ==> id in n.known && r.known[id] <= n.known[id])
            && (!u.removed && MeasuredResidual(u).Some? ==> id in n.known && MeasuredResidual(u).value <= n.known[id])
  {
  }

  /** What a surviving target leaves is measured when its size is positive, or zero beside freed bytes or a removal
      reported as done; it is unmeasured when the size is negative, or zero without either after an attempt. */
  lemma ResidualsMean(u: Unit)
    ensures MeasuredResidual(u) == Some(u.residual) || MeasuredResidual(u) == None
    ensures MeasuredResidual(u).Some? <==>
            !u.removed && (u.residual > 0 || (u.residual == 0 && (u.freed > 0 || u.state == Removed)))
    ensures ResidualUnknown(u) <==>
            !u.removed
            && (u.residual < 0
                || (u.residual == 0 && u.freed <= 0 && (u.state == Partial || (u.attempted && u.state != Removed))))
  {
  }

  /** Noting a measured survivor keeps the larger measurement; noting an unmeasured one counts only when there is no
      measurement; noting neither changes nothing. */
  lemma NotingMeans(r: Residuals, id: int, u: Unit)
    ensures var n := Noted(r, id, u);
            && (!u.removed && u.residual > 0 ==>
                  && id in n.known && id !in n.unknown
                  && n.known[id] == if id in r.known && r.known[id] > u.residual then r.known[id] else u.residual)
            && (!u.removed && u.residual < 0 ==>
                  n.known == r.known && n.unknown == if id in r.known then r.unknown else r.unknown + {id})
            && (!u.removed && u.residual == 0 && u.freed <= 0 && !u.attempted && u.state in {Failed, Cancelled} ==>
                  n == r)
  {
  }

  // ----- finalizing

  function CountOf(lines: seq<Line>, s: State): nat {
    if lines == [] then 0 else CountOf(lines[..|lines| - 1], s) + if lines[|lines| - 1].state == s then 1 else 0
  }

  function RequestedCount(lines: seq<Line>): nat {
    if lines == [] then 0 else RequestedCount(lines[..|lines| - 1]) + if lines[|lines| - 1].requested then 1 else 0
  }

  function FreedSum(lines: seq<Line>): int {
    if lines == [] then 0 else FreedSum(lines[..|lines| - 1]) + lines[|lines| - 1].freed
  }

  function TotalsOf(lines: seq<Line>): Totals {
    Totals(RequestedCount(lines), CountOf(lines, Removed), CountOf(lines, Partial), CountOf(lines, Failed),
           CountOf(lines, Cancelled),
           CountOf(lines, Protected), CountOf(lines, Reviewable), CountOf(lines, Skipped), FreedSum(lines))
  }

  function StatusOf(t: Totals): Status {
    if t.cancelled > 0 && t.removed == 0 && t.partial == 0 && t.failed == 0 then StatusCancelled
    else if t.partial > 0 || (t.removed > 0 && (t.failed > 0 || t.cancelled > 0)) then PartialFailure
    else if t.failed > 0 then StatusFailed
    else Succeeded
  }

  /** A line still pending at the end was never executed. */
  function Settled(line: Line): Line {
    if line.state == Pending then Marked(line, Failed, true) else line
  }

  function AllSettled(lines: seq<Line>): (r: seq<Line>)
    ensures |r| == |lines|
  {
    seq(|lines|, i requires 0 <= i < |lines| => Settled(lines[i]))
  }

  lemma {:induction false} RequestsAreOutcomes(lines: seq<Line>)
    requires IsSound(lines)
    ensures RequestedCount(lines) == CountOf(lines, Removed) + CountOf(lines, Partial) + CountOf(lines, Failed)
            + CountOf(lines, Cancelled)
    ensures FreedSum(lines) >= 0
  {
    if lines != [] {
      RequestsAreOutcomes(lines[..|lines| - 1]);
    }
  }

  lemma {:induction false} CountsAreFound(lines: seq<Line>, s: State)
    ensures CountOf(lines, s) > 0 <==> exists i :: 0 <= i < |lines| && lines[i].state == s
  {
    if lines != [] {
      CountsAreFound(lines[..|lines| - 1], s);
    }
  }

  lemma SettlingKeepsSound(lines: seq<Line>)
    requires IsSound(lines)
    ensures IsSound(AllSettled(lines)) && forall i :: 0 <= i < |lines| ==> AllSettled(lines)[i].state != Pending
  {
  }

  predicate IsAccounted(t: Totals) {
    t.requested == t.removed + t.partial + t.failed + t.cancelled
  }

  /** Sound lines always add up. */
  lemma SoundLinesAreAccounted(lines: seq<Line>)
    requires IsSound(lines)
    ensures IsSound(AllSettled(lines)) && IsAccounted(TotalsOf(AllSettled(lines)))
  {
    SettlingKeepsSound(lines);
    RequestsAreOutcomes(AllSettled(lines));
  }

  /** What a receipt's status says of its lines. */
  lemma StatusMeans(lines: seq<Line>)
    ensures var status := StatusOf(TotalsOf(lines));
            var (removed, partial) := (HasState(lines, Removed), HasState(lines, Partial));
            var (failed, cancelled) := (HasState(lines, Failed), HasState(lines, Cancelled));
            && (status == Succeeded <==> !partial && !failed && !cancelled)
            && (status == PartialFailure <==> partial || (removed && (failed || cancelled)))
            && (status == StatusFailed <==> failed && !partial && !removed)
            && (status == StatusCancelled <==> cancelled && !removed && !partial && !failed)
  {
    CountsAreFound(lines, Removed);
    CountsAreFound(lines, Partial);
    CountsAreFound(lines, Failed);
    CountsAreFound(lines, Cancelled);
  }

  ghost predicate HasState(lines: seq<Line>, s: State) {
    exists i :: 0 <= i < |lines| && lines[i].state == s
  }

  ghost function LinesIn(lines: seq<Line>, s: State): set<int> {
    set i | 0 <= i < |lines| && lines[i].state == s
  }

  lemma {:induction false} CountIsCardinality(lines: seq<Line>, s: State)
    ensures CountOf(lines, s) == |LinesIn(lines, s)|
  {
    if lines != [] {
      var last := |lines| - 1;
      CountIsCardinality(lines[..last], s);
      assert LinesIn(lines, s) == LinesIn(lines[..last], s) + if lines[last].state == s then {last} else {};
    }
  }

  lemma {:induction false} RequestedIsCardinality(lines: seq<Line>)
    ensures RequestedCount(lines) == |set i | 0 <= i < |lines| && lines[i].requested|
  {
    if lines != [] {
      var last := |lines| - 1;
      RequestedIsCardinality(lines[..last]);
      assert (set i | 0 <= i < |lines| && lines[i].requested) ==
             (set i | 0 <= i < last && lines[..last][i].requested) + if lines[last].requested then {last} else {};
    }
  }

  /** The totals count the lines in each state, and the requested ones. */
  lemma TotalsCount(lines: seq<Line>)
    ensures var t := TotalsOf(lines);
            && t.requested == |set i | 0 <= i < |lines| && lines[i].requested|
            && t.removed == |LinesIn(lines, Removed)| && t.partial == |LinesIn(lines, Partial)|
            && t.failed == |LinesIn(lines, Failed)| && t.cancelled == |LinesIn(lines, Cancelled)|
            && t.guarded == |LinesIn(lines, Protected)| && t.reviewable == |LinesIn(lines, Reviewable)|
            && t.skipped == |LinesIn(lines, Skipped)|
  {
    hide LinesIn;
    RequestedIsCardinality(lines);
    CountIsCardinality(lines, Removed);
    CountIsCardinality(lines, Partial);
    CountIsCardinality(lines, Failed);
    CountIsCardinality(lines, Cancelled);
    CountIsCardinality(lines, Protected);
    CountIsCardinality(lines, Reviewable);
    CountIsCardinality(lines, Skipped);
  }

  /** The freed total adds the lines' own freed bytes. */
  lemma {:induction false} FreedTotalIsASum(a: seq<Line>, b: seq<Line>)
    ensures TotalsOf(a + b).freed == TotalsOf(a).freed + TotalsOf(b).freed && TotalsOf([]).freed == 0
    ensures forall line :: TotalsOf([line]).freed == line.freed
  {
    hide CountOf, RequestedCount;
    assert forall line :: FreedSum([line][..0]) == 0;
    LastOfBoth(a, b);
    if b != [] {
      FreedTotalIsASum(a, b[..|b| - 1]);
    }
  }

  /** A finalized receipt succeeded exactly when no line is partial, failed or cancelled. */
  lemma SucceededMeans(lines: seq<Line>)
    ensures StatusOf(TotalsOf(lines)) == Succeeded <==>
            forall i :: 0 <= i < |lines| ==>
              lines[i].state != Partial && lines[i].state != Failed
              && lines[i].state != Cancelled
    ensures StatusOf(TotalsOf(lines)) == StatusCancelled ==>
              forall i :: 0 <= i < |lines| ==>
                lines[i].state != Removed && lines[i].state != Partial && lines[i].state != Failed
  {
    CountsAreFound(lines, Removed);
    CountsAreFound(lines, Partial);
    CountsAreFound(lines, Failed);
    CountsAreFound(lines, Cancelled);
  }

  lemma {:induction false} FreedAfter(lines: seq<Line>, i: int, line: Line)
    requires 0 <= i < |lines|
    ensures FreedSum(lines[i := line]) == FreedSum(lines) + line.freed - lines[i].freed
  {
    var now := lines[i := line];
    if i < |lines| - 1 {
      FreedAfter(lines[..|lines| - 1], i, line);
      assert now[..|now| - 1] == lines[..|lines| - 1][i := line];
    } else {
      assert now[..|now| - 1] == lines[..|lines| - 1];
    }
  }

  lemma {:induction false} SettlingFreesNothing(lines: seq<Line>)
    requires forall i :: 0 <= i < |lines| && lines[i].state == Pending ==> lines[i].freed == 0
    ensures FreedSum(AllSettled(lines)) == FreedSum(lines)
  {
    if lines != [] {
      SettlingFreesNothing(lines[..|lines| - 1]);
      assert AllSettled(lines)[..|lines| - 1] == AllSettled(lines[..|lines| - 1]);
    }
  }

  // ----- the receipt

  class Receipt {
    var lines: seq<Line>
    var residuals: Residuals
    var status: Status
    var totals: Totals

    /** Selected targets start pending; the others start, and stay unless refused, as they were decided. */
    constructor (decisions: seq<Decision>)
      ensures |lines| == |decisions| && forall i :: 0 <= i < |decisions| ==> lines[i] == FirstLine(decisions[i])
      ensures residuals == Residuals(map[], {}) && status == StatusPending && IsSound(lines)
    {
      lines := seq(|decisions|, i requires 0 <= i < |decisions| => FirstLine(decisions[i]));
      residuals := Residuals(map[], {});
      status := StatusPending;
      totals := Totals(0, 0, 0, 0, 0, 0, 0, 0, 0);
    }

    method Mark(id: int, state: State, requested: bool)
      modifies this`lines
      ensures lines == if 0 <= id < |old(lines)| then old(lines)[id := Marked(old(lines)[id], state, requested)]
              else old(lines)
    {
      for i := 0 to |lines|
        invariant lines == old(lines) && !(0 <= id < i)
      {
        if i == id {
          lines := lines[i := Marked(lines[i], state, requested)];
          return;
        }
      }
    }

    /** One unit is recorded on its line, with what it leaves behind. */
    method ApplyUnit(id: int, u: Unit) returns (matched: bool)
      modifies this`lines, this`residuals
      ensures matched <==> 0 <= id < |old(lines)|
      ensures lines == if matched then old(lines)[id := Applied(u)] else old(lines)
      ensures matched ==>
                && lines[id].state == u.state && lines[id].removed == u.removed
                && (u.freed >= 0 ==> lines[id].freed == u.freed) && (u.freed < 0 ==> lines[id].freed == 0)
      ensures residuals == if matched then Noted(old(residuals), id, u) else old(residuals)
    {
      for i := 0 to |lines|
        invariant lines == old(lines) && residuals == old(residuals) && !(0 <= id < i)
      {
        if i == id {
          var line := lines[i].(state := u.state);
          line := line.(requested := u.state == Removed || u.state == Partial || u.state == Failed
                        || u.state == Cancelled);
          line := line.(removed := u.removed, freed := u.freed);
          if line.freed < 0 {
            line := line.(freed := 0);
          }
          line := line.(residual := if u.removed then None else Some(u.residual));
          lines := lines[i := line];
          Note(id, u);
          return true;
        }
      }
      return false;
    }

    method Note(id: int, u: Unit)
      modifies this`residuals
      ensures residuals == Noted(old(residuals), id, u)
    {
      if u.removed {
        residuals := Residuals(residuals.known - {id}, residuals.unknown - {id});
        return;
      }
      var measured := MeasuredResidual(u);
      if measured.Some? {
        if id !in residuals.known || measured.value > residuals.known[id] {
          residuals := residuals.(known := residuals.known[id := measured.value]);
        }
        residuals := residuals.(unknown := residuals.unknown - {id});
        return;
      }
      if ResidualUnknown(u) && id !in residuals.known {
        residuals := residuals.(unknown := residuals.unknown + {id});
      }
    }

    /** Pending lines fail, and the rest is counted; requests that do not add up fail the receipt. */
    method Finalize() returns (ok: bool)
      modifies this`lines, this`totals, this`status
      ensures lines == AllSettled(old(lines)) && totals == TotalsOf(lines)
      ensures ok <==> IsAccounted(totals)
      ensures status == if ok then StatusOf(totals) else StatusFailed
    {
      ghost var was := lines;
      for i := 0 to |lines|
        invariant |lines| == |was| && forall j :: 0 <= j < |was| ==>
                    lines[j] ==
                      if j < i then Settled(was[j]) else was[j]
      {
        if lines[i].state == Pending {
          Mark(i, Failed, true);
        }
      }
      assert lines == AllSettled(was);
      totals := CountLines(lines);
      if totals.requested != totals.removed + totals.partial + totals.failed + totals.cancelled {
        status := StatusFailed;
        return false;
      }
      status := StatusOf(totals);
      return true;
    }
  }

  method CountLines(lines: seq<Line>) returns (t: Totals)
    ensures t == TotalsOf(lines)
  {
    t := Totals(0, 0, 0, 0, 0, 0, 0, 0, 0);
    for i := 0 to |lines|
      invariant t == TotalsOf(lines[..i])
    {
      assert lines[..i + 1][..i] == lines[..i];
      match lines[i].state {
        case Removed => t := t.(removed := t.removed + 1);
        case Partial => t := t.(partial := t.partial + 1);
        case Failed => t := t.(failed := t.failed + 1);
        case Cancelled => t := t.(cancelled := t.cancelled + 1);
        case Protected => t := t.(guarded := t.guarded + 1);
        case Reviewable => t := t.(reviewable := t.reviewable + 1);
        case Skipped => t := t.(skipped := t.skipped + 1);
        case Pending =>
      }
      if lines[i].requested {
        t := t.(requested := t.requested + 1);
      }
      t := t.(freed := t.freed + lines[i].freed);
    }
    assert lines[..|lines|] == lines;
  }
}
