/** Receipt execution on top of the executor: what stands on every line after a run. */
module ReceiptRuns {
  import opened Wrappers
  import opened PathKeys
  import opened Execution
  import opened Receipts
  import opened ReceiptExecution
  import G = GuidedReceipts

  /** What a run meets, by prompt: the context, the answer, validation, and the world executing happens in. */
  datatype Meeting = Meeting(ended: int -> bool, scan: int -> Scan, validation: int -> G.Validation,
                             world: int -> World)

  /** The target with the key; a key without a target is nothing that was prepared. */
  function TargetOf(targets: seq<Target>, key: string): (t: Target)
    ensures t.key == key
  {
    if targets == [] then Target(key, 0, true, false, false, false)
    else if targets[0].key == key then targets[0]
    else TargetOf(targets[1..], key)
  }

  function TargetsOf(targets: seq<Target>, keys: seq<string>): (r: seq<Target>)
    ensures |r| == |keys| && forall i :: 0 <= i < |keys| ==> r[i] == TargetOf(targets, keys[i])
  {
    seq(|keys|, i requires 0 <= i < |keys| => TargetOf(targets, keys[i]))
  }

  /** The receipt's surroundings when the prepared targets are executed. */
  function SurroundingsOf(targets: seq<Target>, m: Meeting): (s: Surroundings)
    ensures s.ended == m.ended && s.scan == m.scan && s.validation == m.validation
    ensures forall i, keys :: s.execute(i, keys) == Executed(TargetsOf(targets, keys), m.world(i))
  {
    Surroundings(m.ended, m.scan, m.validation, (i, keys) => Executed(TargetsOf(targets, keys), m.world(i)))
  }

  /** The executor answers each key of a batch once, in order. */
  lemma ExecutorIsFaithful(targets: seq<Target>, m: Meeting)
    ensures IsFaithful(SurroundingsOf(targets, m))
  {
    hide UnitAt, ProgressAt;
    var s := SurroundingsOf(targets, m);
    forall i, keys | AreKeys(keys) ensures AnswersEach(keys, s.execute(i, keys).0) {
      assert HasKeys(TargetsOf(targets, keys));
    }
  }

  /** A target found by its key is the one prepared under it. */
  lemma {:induction false} KeysFindTargets(targets: seq<Target>, i: nat)
    requires HasKeys(targets) && i < |targets|
    ensures TargetOf(targets, targets[i].key) == targets[i]
  {
    if i > 0 {
      assert targets[1..][i - 1] == targets[i];
      KeysFindTargets(targets[1..], i - 1);
    }
  }

  /** The targets are those handed over, under their keys. */
  predicate ArePreparedAs(targets: seq<Target>, prepared: seq<Prepared>) {
    |targets| == |prepared| && forall i :: 0 <= i < |targets| ==> targets[i].key == prepared[i].key
  }

  lemma PreparedAreFound(keys: seq<PathKey>, selected: seq<Option<PathKey>>, prepared: seq<Prepared>,
                         targets: seq<Target>)
    requires CanStart(keys, selected, prepared) && ArePreparedAs(targets, prepared)
    ensures forall i :: 0 <= i < |prepared| ==> TargetOf(targets, prepared[i].key) == targets[i]
  {
    hide LineOf, IsSelected, IsLineOf;
    forall i | 0 <= i < |targets| ensures targets[i].key != "" {
      assert CanBind(keys, prepared[i]);
    }
    forall i | 0 <= i < |prepared| ensures TargetOf(targets, prepared[i].key) == targets[i] {
      KeysFindTargets(targets, i);
    }
  }

  // ----- what stands on the lines

  lemma ExecutedAlone(targets: seq<Target>, m: Meeting, key: string, i: int)
    requires key != ""
    ensures SurroundingsOf(targets, m).execute(i, [key]).0 == [G.ExecutedUnit(TargetOf(targets, key), m.world(i))]
  {
    var t := TargetOf(targets, key);
    assert TargetsOf(targets, [key]) == [t];
    G.OneRun([t], 0, m.world(i));
  }

  /** The units of the passed targets hold one for each approved one. */
  lemma {:induction false} ApprovedIsLogged(s: Surroundings, bound: seq<G.Bound>, n: nat, i: nat, u: Unit)
    requires i < n <= |bound| && s.scan(i) == Yes && s.execute(i, [bound[i].key]).0 == [u]
    ensures u in UnitsBefore(s, bound, n)
  {
    NextUnits(s, bound, n - 1);
    if i < n - 1 {
      ApprovedIsLogged(s, bound, n - 1, i, u);
    }
  }

  lemma LoggedStands(bound: seq<G.Bound>, lines: seq<Line>, log: seq<Unit>, i: nat, u: Unit)
    requires G.AreBound(bound, |lines|) && IsRecorded(bound, lines, log) && i < |bound|
    requires u in log && u.key == bound[i].key
    ensures 0 <= bound[i].id < |lines| && lines[bound[i].id] == Applied(u)
  {
    hide FreedSum, G.BytesRecorded, Applied;
    var n :| 0 <= n < |log| && log[n] == u;
    assert Stands(bound, lines, log[n], |bound|);
    G.IndexIs(bound, i, |lines|);
  }

  /** Every approved target the loop passed has its unit on its line. */
  ghost predicate ShowApproved(targets: seq<Target>, m: Meeting, c: Course, lines: seq<Line>) {
    forall i :: 0 <= i < c.stop.number && i < |c.bound| && m.scan(i) == Yes ==>
      && 0 <= c.bound[i].id < |lines|
      && lines[c.bound[i].id] == Applied(G.ExecutedUnit(TargetOf(targets, c.bound[i].key), m.world(i)))
  }

  lemma ApprovedAreShown(targets: seq<Target>, m: Meeting, c: Course, lines: seq<Line>)
    requires 0 <= c.stop.number <= |c.bound| && G.AreBound(c.bound, |lines|)
    requires c.log == UnitsBefore(SurroundingsOf(targets, m), c.bound, c.stop.number)
    requires IsRecorded(c.bound, lines, c.log)
    ensures ShowApproved(targets, m, c, lines)
  {
    hide IsRecorded, UnitsBefore, Applied, G.ExecutedUnit;
    var s := SurroundingsOf(targets, m);
    forall i | 0 <= i < c.stop.number && m.scan(i) == Yes
      ensures && 0 <= c.bound[i].id < |lines|
              && lines[c.bound[i].id] == Applied(G.ExecutedUnit(TargetOf(targets, c.bound[i].key), m.world(i)))
    {
      var t := TargetOf(targets, c.bound[i].key);
      var u := G.ExecutedUnit(t, m.world(i));
      ExecutedAlone(targets, m, c.bound[i].key, i);
      assert u.key == t.key by {
        G.OneRun([t], 0, m.world(i));
      }
      ApprovedIsLogged(s, c.bound, c.stop.number, i, u);
      LoggedStands(c.bound, lines, c.log, i, u);
    }
  }

  /** Every target of a batch that was executed has its unit on its line. */
  ghost predicate ShowBatch(targets: seq<Target>, m: Meeting, c: Course, lines: seq<Line>) {
    var batch := TargetsOf(targets, KeysOf(c.bound));
    forall i :: 0 <= i < |c.bound| ==>
      0 <= c.bound[i].id < |lines| && lines[c.bound[i].id] == Applied(UnitAt(batch, m.world(0), i))
  }

  lemma BatchIsShown(targets: seq<Target>, m: Meeting, c: Course, lines: seq<Line>)
    requires G.AreBound(c.bound, |lines|) && IsRecorded(c.bound, lines, c.log)
    requires c.log == SurroundingsOf(targets, m).execute(0, KeysOf(c.bound)).0
    ensures ShowBatch(targets, m, c, lines)
  {
    hide IsRecorded, Applied, UnitAt;
    var batch := TargetsOf(targets, KeysOf(c.bound));
    assert HasKeys(batch);
    forall i | 0 <= i < |c.bound|
      ensures 0 <= c.bound[i].id < |lines| && lines[c.bound[i].id] == Applied(UnitAt(batch, m.world(0), i))
    {
      assert c.log[i] == UnitAt(batch, m.world(0), i);
      LoggedStands(c.bound, lines, c.log, i, c.log[i]);
    }
  }

  /** A whole run, with the executor in place: it begins exactly when it may, ends without an error exactly when every
      step went well, and in the end every executed target's unit stands on its line, every other line is in the state
      its stop calls for, and the freed total is that of the units. */
  method RunReceipt(decisions: seq<Decision>, keys: seq<PathKey>, selected: seq<Option<PathKey>>,
                    prepared: seq<Prepared>,
                    targets: seq<Target>, force: bool, interactive: bool, m: Meeting)
    returns (r: Receipt, ok: bool, ghost c: Course)
    requires |decisions| == |keys| && ArePreparedAs(targets, prepared)
    ensures fresh(r) && |r.lines| == |decisions| && IsSound(r.lines) && IsAccounted(r.totals)
    ensures r.totals == TotalsOf(r.lines) && r.status == StatusOf(r.totals)
    ensures r.totals.freed == FreedBy(G.Freeing(c.log))
    ensures (forall n :: 0 <= n < |c.log| ==> c.log[n].freed >= 0) ==> r.totals.freed == FreedBy(c.log)
    ensures OthersAsDecided(decisions, keys, selected, prepared, c, r.lines)
    ensures c.begun <==> prepared != [] && CanStart(keys, selected, prepared)
    ensures c.begun ==> MayBegin(keys, selected, prepared, c.bound)
    ensures c.begun ==> forall i :: 0 <= i < |prepared| ==> TargetOf(targets, prepared[i].key) == targets[i]
    ensures !c.begun ==> c.log == []
    ensures var s := SurroundingsOf(targets, m);
            ok <==> CanStart(keys, selected, prepared)
                    && (!c.begun || if interactive then EndsWell(s, c.bound, c.stop)
                        else BatchEndsWell(s, force, c.bound))
    ensures c.begun && interactive ==>
              var s := SurroundingsOf(targets, m);
              && 0 <= c.stop.number <= |c.bound| && c.log == UnitsBefore(s, c.bound, c.stop.number)
              && IsStop(s, c.bound, c.stop) && ShowApproved(targets, m, c, r.lines)
              && AreLeft(s, c.bound, r.lines, c.stop, |c.bound|)
    ensures c.begun && !interactive ==>
              if !force && m.scan(0) != Yes then AreAll(c.bound, r.lines, Cancelled)
              else match m.validation(0)
                   case Valid =>
                     && ShowBatch(targets, m, c, r.lines)
                     && c.log == Executed(TargetsOf(targets, KeysOf(c.bound)), m.world(0)).0
                   case ValidationCanceled => AreAll(c.bound, r.lines, Cancelled)
                   case Invalid => AreAll(c.bound, r.lines, Failed)
  {
    hide StatusOf, TotalsOf, IsSound, IsAccounted, CanStart, MayBegin, IsStop, ShowApproved, AreLeft, AreAll, ShowBatch,
         IsFaithful, IsRecorded, EndsWell, BatchEndsWell, UnitsBefore, G.Freeing, FreedBy, Executed, OthersAsDecided;
    var s := SurroundingsOf(targets, m);
    ExecutorIsFaithful(targets, m);
    r, ok, c := ExecuteReceipt(decisions, keys, selected, prepared, force, interactive, s);
    RecordedFreed(c.bound, r.lines, c.log);
    if c.begun {
      BoundOf(keys, selected, prepared, c.bound, |r.lines|);
      PreparedAreFound(keys, selected, prepared, targets);
      if interactive {
        StopInside(s, c.bound, c.stop);
        ApprovedAreShown(targets, m, c, r.lines);
      } else if (force || m.scan(0) == Yes) && m.validation(0).Valid? {
        BatchIsShown(targets, m, c, r.lines);
      }
    }
  }

  lemma RecordedFreed(bound: seq<G.Bound>, lines: seq<Line>, log: seq<Unit>)
    requires IsRecorded(bound, lines, log)
    ensures TotalsOf(lines).freed == FreedBy(G.Freeing(log))
  {
    G.BytesAreFreed(log);
  }
}
