/** Executing a plan for a receipt: binding targets, confirmation, validation, execution, and what is recorded. */
module ReceiptExecution {
  import opened Wrappers
  import opened Ordering
  import opened PathKeys
  import opened Execution
  import opened Receipts
  import G = GuidedReceipts

  type Bound = G.Bound

  /** A prepared target as handed over: its key, its canonical path, and the key its item has now. */
  datatype Prepared = Prepared(key: string, path: Option<PathKey>, itemKey: string)

  /** What reading an answer gives. NoReader is a missing reader while the context holds. */
  datatype Scan = NoReader | ReadCancelled | NoLine | Yes | No | OtherLine

  /** What happens around prepared target i: the context, the answer, validation, and executing a batch of keys. */
  datatype Surroundings = Surroundings(ended: int -> bool, scan: int -> Scan, validation: int -> G.Validation,
                                       execute: (int, seq<string>) -> (seq<Unit>, Option<Failure>))

  // ----- binding

  function PositionOf(keys: seq<PathKey>, p: PathKey): (i: int)
    ensures -1 <= i < |keys| && (i >= 0 ==> keys[i] == p) && (i == -1 ==> p !in keys)
  {
    if keys == [] then -1
    else if PositionOf(keys[..|keys| - 1], p) >= 0 then PositionOf(keys[..|keys| - 1], p)
    else if keys[|keys| - 1] == p then |keys| - 1
    else -1
  }

  function LineOf(keys: seq<PathKey>, path: Option<PathKey>): int {
    match path
    case None => -1
    case Some(p) => PositionOf(keys, p)
  }

  predicate CanBind(keys: seq<PathKey>, p: Prepared) {
    p.key != "" && p.key == p.itemKey && LineOf(keys, p.path) >= 0
  }

  /** Every target has an unchanged key and a line, and no two share either. */
  ghost predicate AreBindable(keys: seq<PathKey>, prepared: seq<Prepared>) {
    && Distinct(keys) && (forall i :: 0 <= i < |prepared| ==> CanBind(keys, prepared[i]))
    && forall i, j :: 0 <= i < j < |prepared| ==>
         prepared[i].key != prepared[j].key && LineOf(keys, prepared[i].path) != LineOf(keys, prepared[j].path)
  }

  method CheckDistinct(keys: seq<PathKey>) returns (ok: bool)
    ensures ok <==> Distinct(keys)
  {
    var seen: set<PathKey> := {};
    for i := 0 to |keys|
      invariant forall k :: k in seen <==> exists j :: 0 <= j < i && keys[j] == k
      invariant forall a, b :: 0 <= a < b < i ==> keys[a] != keys[b]
    {
      if keys[i] in seen {
        return false;
      }
      seen := seen + {keys[i]};
    }
    return true;
  }

  method BindPrepared(keys: seq<PathKey>, prepared: seq<Prepared>) returns (r: Option<seq<Bound>>)
    ensures r.Some? <==> AreBindable(keys, prepared)
    ensures r.Some? ==> G.AreBound(r.value, |keys|) && |r.value| == |prepared|
                        && forall i :: 0 <= i < |prepared| ==>
                             r.value[i] == G.Bound(prepared[i].key, LineOf(keys, prepared[i].path))
  {
    hide LineOf;
    var distinct := CheckDistinct(keys);
    if !distinct {
      return None;
    }
    var bound: seq<Bound> := [];
    var names: set<string> := {};
    var lines: set<int> := {};
    for i := 0 to |prepared|
      invariant |bound| == i && forall j :: 0 <= j < i ==>
                                  bound[j] == G.Bound(prepared[j].key, LineOf(keys, prepared[j].path))
                                  && CanBind(keys, prepared[j])
      invariant forall k :: k in names <==> exists j :: 0 <= j < i && prepared[j].key == k
      invariant forall l :: l in lines <==> exists j :: 0 <= j < i && LineOf(keys, prepared[j].path) == l
      invariant forall a, b :: 0 <= a < b < i ==>
                  prepared[a].key != prepared[b].key && LineOf(keys, prepared[a].path) != LineOf(keys, prepared[b].path)
    {
      if !CanBind(keys, prepared[i]) {
        return None;
      }
      var line := LineOf(keys, prepared[i].path);
      if prepared[i].key in names || line in lines {
        return None;
      }
      names, lines := names + {prepared[i].key}, lines + {line};
      bound := bound + [G.Bound(prepared[i].key, line)];
    }
    LinesAreInside(keys, prepared);
    return Some(bound);
  }

  lemma LinesAreInside(keys: seq<PathKey>, prepared: seq<Prepared>)
    ensures forall i :: 0 <= i < |prepared| ==> LineOf(keys, prepared[i].path) < |keys|
  {
  }

  predicate EarlierLine(a: Bound, b: Bound) {
    a.id < b.id
  }

  lemma SortedIsBound(bound: seq<Bound>, lines: int)
    requires G.AreBound(bound, lines)
    ensures var s := SortBy(bound, EarlierLine);
            G.AreBound(s, lines) && |s| == |bound| && (forall b :: b in s <==> b in bound)
            && forall i, j :: 0 <= i < j < |s| ==> s[i].id < s[j].id
  {
    var rank := (b: Bound) => b.id;
    SortOrders(bound, EarlierLine, rank);
    SortKeeps(bound, EarlierLine);
    SortKeepsMembers(bound, EarlierLine);
    SortKeepsDistinct(bound, EarlierLine);
    var s := SortBy(bound, EarlierLine);
    hide SortBy;
    assert forall i, j :: 0 <= i < j < |s| ==> s[i].id <= s[j].id by {
      forall i, j | 0 <= i < j < |s| ensures s[i].id <= s[j].id {
        assert rank(s[i]) <= rank(s[j]);
      }
    }
    RearrangedIsBound(bound, s, lines);
  }

  lemma RearrangedIsBound(bound: seq<Bound>, s: seq<Bound>, lines: int)
    requires G.AreBound(bound, lines) && Distinct(s) && (forall b :: b in s ==> b in bound)
    requires forall i, j :: 0 <= i < j < |s| ==> s[i].id <= s[j].id
    ensures G.AreBound(s, lines) && forall i, j :: 0 <= i < j < |s| ==> s[i].id < s[j].id
  {
    forall i, j | 0 <= i < j < |s| ensures s[i].key != s[j].key && s[i].id < s[j].id {
      assert s[i] in bound && s[j] in bound && s[i] != s[j];
      var a :| 0 <= a < |bound| && bound[a] == s[i];
      var b :| 0 <= b < |bound| && bound[b] == s[j];
      assert a < b || b < a;
    }
    forall i | 0 <= i < |s| ensures s[i].key != "" && 0 <= s[i].id < lines {
      assert s[i] in bound;
    }
  }

  // ----- what is recorded

  predicate AreKeys(keys: seq<string>) {
    && (forall i :: 0 <= i < |keys| ==> keys[i] != "")
    && forall i, j :: 0 <= i < j < |keys| ==> keys[i] != keys[j]
  }

  /** The executor answers a batch of distinct keys with one unit per key, in order. */
  ghost predicate IsFaithful(s: Surroundings) {
    forall i, keys :: AreKeys(keys) ==> AnswersEach(keys, s.execute(i, keys).0)
  }

  ghost predicate AnswersEach(keys: seq<string>, units: seq<Unit>) {
    |units| == |keys| && forall n :: 0 <= n < |keys| ==> units[n].key == keys[n]
  }

  /** The first i bound targets are behind: every unit logged so far still stands on its line, the later lines freed
      nothing, and the lines' freed bytes are those of the log. */
  ghost predicate Shows(bound: seq<Bound>, lines: seq<Line>, log: seq<Unit>, i: int) {
    && (forall n :: 0 <= n < |log| ==> Stands(bound, lines, log[n], i))
    && FreedSum(lines) == G.BytesRecorded(log)
    && (forall j :: i <= j < |bound| && 0 <= j && 0 <= bound[j].id < |lines| ==> lines[bound[j].id].freed == 0)
    && (forall j :: 0 <= j < |lines| && lines[j].state == Pending ==> lines[j].freed == 0)
  }

  ghost predicate Stands(bound: seq<Bound>, lines: seq<Line>, u: Unit, i: int) {
    var k := G.IndexOf(bound, u.key);
    0 <= k < i && 0 <= bound[k].id < |lines| && lines[bound[k].id] == Applied(u)
  }

  lemma MarkShows(bound: seq<Bound>, lines: seq<Line>, log: seq<Unit>, i: int, state: State, requested: bool)
    requires G.AreBound(bound, |lines|) && 0 <= i < |bound| && Shows(bound, lines, log, i) && state != Pending
    ensures Shows(bound, lines[bound[i].id := Marked(lines[bound[i].id], state, requested)], log, i + 1)
  {
    hide FreedSum, G.BytesRecorded;
    FreedAfter(lines, bound[i].id, Marked(lines[bound[i].id], state, requested));
    var now := lines[bound[i].id := Marked(lines[bound[i].id], state, requested)];
    forall n | 0 <= n < |log| ensures Stands(bound, now, log[n], i + 1) {
      assert Stands(bound, lines, log[n], i);
    }
  }

  lemma ApplyShows(bound: seq<Bound>, lines: seq<Line>, log: seq<Unit>, i: int, u: Unit)
    requires G.AreBound(bound, |lines|) && 0 <= i < |bound| && Shows(bound, lines, log, i) && u.key == bound[i].key
    ensures Shows(bound, lines[bound[i].id := Applied(u)], log + [u], i + 1)
  {
    hide FreedSum, G.BytesRecorded, Applied;
    var now := lines[bound[i].id := Applied(u)];
    FreedAfter(lines, bound[i].id, Applied(u));
    G.BytesStep(log, u);
    G.IndexIs(bound, i, |lines|);
    AppliedState(u);
    forall n | 0 <= n < |log + [u]| ensures Stands(bound, now, (log + [u])[n], i + 1) {
      assert n < |log| ==> Stands(bound, lines, log[n], i);
    }
  }

  lemma AppliedState(u: Unit)
    ensures Applied(u).state == u.state != Pending
  {
  }

  ghost predicate IsPrepared(bound: seq<Bound>, l: int) {
    exists i :: 0 <= i < |bound| && bound[i].id == l
  }

  /** Lines that are not those of bound targets stand as they were. */
  ghost predicate LeavesOthers(bound: seq<Bound>, was: seq<Line>, now: seq<Line>) {
    |now| == |was| && forall j :: 0 <= j < |was| && !IsPrepared(bound, j) ==> now[j] == was[j]
  }

  lemma OthersStand(bound: seq<Bound>, lines: seq<Line>)
    ensures LeavesOthers(bound, lines, lines)
  {
  }

  lemma OthersStay(bound: seq<Bound>, was: seq<Line>, now: seq<Line>, k: int, line: Line)
    requires LeavesOthers(bound, was, now) && 0 <= k < |bound| && 0 <= bound[k].id < |now|
    ensures LeavesOthers(bound, was, now[bound[k].id := line])
  {
    assert IsPrepared(bound, bound[k].id);
  }

  lemma OthersStill(bound: seq<Bound>, was: seq<Line>, before: seq<Line>, now: seq<Line>)
    requires LeavesOthers(bound, was, before) && LeavesOthers(bound, before, now)
    ensures LeavesOthers(bound, was, now)
  {
  }

  /** Lines that changed are those of the bound targets from a up to b. */
  ghost predicate OnlyChanges(bound: seq<Bound>, was: seq<Line>, now: seq<Line>, a: int, b: int) {
    && |now| == |was|
    && forall j :: 0 <= j < |was| && now[j] != was[j] ==> exists k :: 0 <= a <= k < b && k < |bound| && bound[k].id == j
  }

  lemma NoChanges(bound: seq<Bound>, was: seq<Line>, i: int)
    ensures OnlyChanges(bound, was, was, i, i)
  {
  }

  lemma ApplyKeepsSound(lines: seq<Line>, id: int, u: Unit)
    requires IsSound(lines) && 0 <= id < |lines|
    ensures IsSound(lines[id := Applied(u)])
  {
  }

  lemma ChangesGrow(bound: seq<Bound>, was: seq<Line>, now: seq<Line>, a: int, b: int, line: Line)
    requires 0 <= a <= b < |bound| && OnlyChanges(bound, was, now, a, b) && 0 <= bound[b].id < |was|
    ensures OnlyChanges(bound, was, now[bound[b].id := line], a, b + 1)
  {
    var after := now[bound[b].id := line];
    forall j | 0 <= j < |was| && after[j] != was[j]
      ensures exists k :: 0 <= a <= k < b + 1 && k < |bound| && bound[k].id == j
    {
      if j == bound[b].id {
        assert a <= b < b + 1;
      } else {
        var k :| 0 <= a <= k < b && k < |bound| && bound[k].id == j;
      }
    }
  }

  /** The units of one execution, each on the line its key is bound to. */
  method ApplyExecution(r: Receipt, bound: seq<Bound>, units: seq<Unit>, ghost i: int, ghost log: seq<Unit>)
    returns (ok: bool)
    requires G.AreBound(bound, |r.lines|) && IsSound(r.lines)
    modifies r`lines, r`residuals
    ensures |r.lines| == |old(r.lines)| && IsSound(r.lines) && LeavesOthers(bound, old(r.lines), r.lines)
    ensures Answered(bound, i, units) ==> ok
    ensures Answered(bound, i, units) && Shows(bound, old(r.lines), log, i) ==>
              && Shows(bound, r.lines, log + units, i + |units|)
              && OnlyChanges(bound, old(r.lines), r.lines, i, i + |units|)
  {
    hide Shows, G.AreBound, OnlyChanges, IsSound, Applied, LeavesOthers;
    ok := true;
    ghost var was := r.lines;
    OthersStand(bound, was);
    ghost var answered := Answered(bound, i, units);
    ghost var holds := answered && Shows(bound, was, log, i);
    assert log + units[..0] == log;
    assert OnlyChanges(bound, was, r.lines, i, i) by {
      NoChanges(bound, was, i);
    }
    for n := 0 to |units|
      invariant |r.lines| == |was| && IsSound(r.lines) && (answered ==> ok) && LeavesOthers(bound, was, r.lines)
      invariant holds ==> Shows(bound, r.lines, log + units[..n], i + n)
      invariant holds ==> OnlyChanges(bound, was, r.lines, i, i + n)
    {
      var u := units[n];
      assert log + units[..n + 1] == log + units[..n] + [u];
      if u.key == "" {
        KeyIsBound(bound, |was|, i, units, n, answered);
        ok := false;
        continue;
      }
      var k := G.IndexOf(bound, u.key);
      KeyIsBound(bound, |was|, i, units, n, answered);
      if k < 0 {
        ok := false;
        continue;
      }
      if holds {
        ApplyShows(bound, r.lines, log + units[..n], i + n, u);
        ChangesGrow(bound, was, r.lines, i, i + n, Applied(u));
      }
      ApplyKeepsSound(r.lines, bound[k].id, u);
      OthersStay(bound, was, r.lines, k, Applied(u));
      var matched := r.ApplyUnit(bound[k].id, u);
      ok := ok && matched;
    }
    assert units[..|units|] == units;
  }

  /** The units are one for each bound target from i on. */
  ghost predicate Answered(bound: seq<Bound>, i: int, units: seq<Unit>) {
    && 0 <= i && i + |units| <= |bound|
    && forall n :: 0 <= n < |units| ==> units[n].key == bound[i + n].key
  }

  lemma KeyIsBound(bound: seq<Bound>, lines: int, i: int, units: seq<Unit>, n: int, holds: bool)
    requires G.AreBound(bound, lines) && 0 <= n < |units| && (holds ==> Answered(bound, i, units))
    ensures holds ==> units[n].key != "" && G.IndexOf(bound, units[n].key) == i + n
    ensures G.IndexOf(bound, units[n].key) >= 0 ==> 0 <= bound[G.IndexOf(bound, units[n].key)].id < lines
  {
    if holds {
      G.IndexIs(bound, i + n, lines);
    }
  }

  // ----- one answer for each target

  /** What stopping at target i does to it; None when the loop goes on. */
  function StopState(s: Surroundings, i: int): Option<State> {
    if s.ended(i) then Some(Cancelled)
    else
      match s.scan(i)
      case NoReader => Some(Cancelled)
      case ReadCancelled => Some(Cancelled)
      case NoLine => Some(Cancelled)
      case OtherLine => Some(Cancelled)
      case No => None
      case Yes =>
        match s.validation(i)
        case Valid => None
        case ValidationCanceled => Some(Cancelled)
        case Invalid => Some(Failed)
  }

  predicate StopsAfter(s: Surroundings, i: int, key: string) {
    StopState(s, i) == None && s.scan(i) == Yes && s.execute(i, [key]).1 == Some(Canceled)
  }

  /** Where the loop stopped: at the answer for target number at, or else after executing the one before it. */
  datatype Stop = Stop(number: int, answering: bool)

  /** The state a target that was not executed is left in. */
  function StateFor(s: Surroundings, i: int, stop: Stop): State {
    if i < stop.number then Skipped
    else if i == stop.number && stop.answering && StopState(s, i).Some? then StopState(s, i).value
    else Cancelled
  }

  /** The loop passed the targets before stop and went no further. */
  ghost predicate IsStop(s: Surroundings, bound: seq<Bound>, stop: Stop) {
    && 0 <= stop.number <= |bound|
    && (forall i :: 0 <= i < stop.number ==> StopState(s, i) == None)
    && (forall i :: 0 <= i < stop.number - 1 ==> !StopsAfter(s, i, bound[i].key))
    && (stop.number < |bound| ==>
          if stop.answering then StopState(s, stop.number).Some?
            && (stop.number > 0 ==> !StopsAfter(s, stop.number - 1, bound[stop.number - 1].key))
          else stop.number > 0 && StopsAfter(s, stop.number - 1, bound[stop.number - 1].key))
  }

  /** The target was declined, or executed without a failure. */
  predicate ExecutesWell(s: Surroundings, bound: seq<Bound>, i: int)
    requires 0 <= i < |bound|
  {
    s.scan(i) == Yes ==> s.execute(i, [bound[i].key]).1 == None
  }

  /** The run is reported without an error: every target was declined or executed without a failure, or the run
      stopped for want of a reader. */
  ghost predicate EndsWell(s: Surroundings, bound: seq<Bound>, stop: Stop) {
    if 0 <= stop.number < |bound| then stop.answering && !s.ended(stop.number) && s.scan(stop.number) == NoReader
    else forall i :: 0 <= i < |bound| ==> ExecutesWell(s, bound, i)
  }

  /** The units of the approved targets among the first n. */
  function UnitsBefore(s: Surroundings, bound: seq<Bound>, n: nat): seq<Unit>
    requires n <= |bound|
  {
    if n == 0 then []
    else UnitsBefore(s, bound, n - 1) + if s.scan(n - 1) == Yes then s.execute(n - 1, [bound[n - 1].key]).0 else []
  }

  /** The first n targets that were not executed are in their states. */
  ghost predicate AreLeft(s: Surroundings, bound: seq<Bound>, lines: seq<Line>, stop: Stop, n: int) {
    forall i :: 0 <= i < n && i < |bound| && 0 <= bound[i].id < |lines| && (i >= stop.number || s.scan(i) == No) ==>
      var line := lines[bound[i].id];
      line.state == StateFor(s, i, stop) && (line.requested <==> line.state != Skipped) && line.freed == 0
      && !line.removed
  }

  lemma MarkLeaves(s: Surroundings, bound: seq<Bound>, lines: seq<Line>, stop: Stop, n: int, state: State,
                   requested: bool)
    requires G.AreBound(bound, |lines|) && 0 <= n < |bound| && AreLeft(s, bound, lines, stop, n)
    requires state == StateFor(s, n, stop) && (requested <==> state != Skipped)
    ensures AreLeft(s, bound, lines[bound[n].id := Marked(lines[bound[n].id], state, requested)], stop, n + 1)
  {
    hide StateFor;
  }

  lemma ApplyLeaves(s: Surroundings, bound: seq<Bound>, was: seq<Line>, now: seq<Line>, stop: Stop, n: int)
    requires G.AreBound(bound, |was|) && 0 <= n < |bound| && n < stop.number && AreLeft(s, bound, was, stop, n)
             && s.scan(n) != No
    requires OnlyChanges(bound, was, now, n, n + 1)
    ensures AreLeft(s, bound, now, stop, n + 1)
  {
    hide StateFor;
  }

  lemma LeftSoFar(s: Surroundings, bound: seq<Bound>, lines: seq<Line>, n: int, answering: bool)
    requires AreLeft(s, bound, lines, AtEnd(bound), n) && n <= |bound|
    ensures AreLeft(s, bound, lines, Stop(n, answering), n)
  {
    forall i | 0 <= i < n ensures StateFor(s, i, Stop(n, answering)) == StateFor(s, i, AtEnd(bound)) {
    }
  }

  function AtEnd(bound: seq<Bound>): Stop {
    Stop(|bound|, false)
  }

  /** Everything from n on, which is past the stop, is cancelled. */
  method CancelFrom(r: Receipt, bound: seq<Bound>, n: int, ghost stop: Stop, ghost s: Surroundings,
                    ghost log: seq<Unit>, ghost shows: bool)
    requires G.AreBound(bound, |r.lines|) && IsSound(r.lines) && 0 <= n <= |bound|
    requires stop.number < n || (stop.number == n && !stop.answering)
    requires shows ==> Shows(bound, r.lines, log, n) && AreLeft(s, bound, r.lines, stop, n)
    modifies r`lines
    ensures |r.lines| == |old(r.lines)| && IsSound(r.lines) && LeavesOthers(bound, old(r.lines), r.lines)
    ensures shows ==> Shows(bound, r.lines, log, |bound|) && AreLeft(s, bound, r.lines, stop, |bound|)
  {
    hide Shows, AreLeft, G.AreBound, LeavesOthers;
    OthersStand(bound, r.lines);
    for j := n to |bound|
      invariant |r.lines| == |old(r.lines)| && IsSound(r.lines) && LeavesOthers(bound, old(r.lines), r.lines)
      invariant shows ==> Shows(bound, r.lines, log, j) && AreLeft(s, bound, r.lines, stop, j)
    {
      if shows {
        MarkShows(bound, r.lines, log, j, Cancelled, true);
        MarkLeaves(s, bound, r.lines, stop, j, Cancelled, true);
      }
      var id := IdOf(bound, j, |r.lines|);
      OthersStay(bound, old(r.lines), r.lines, j, Marked(r.lines[id], Cancelled, true));
      r.Mark(id, Cancelled, true);
    }
  }

  /** Target i stops the loop. */
  method StopHere(r: Receipt, bound: seq<Bound>, i: int, s: Surroundings, state: State, ghost log: seq<Unit>,
                  ghost shows: bool)
    requires G.AreBound(bound, |r.lines|) && IsSound(r.lines) && 0 <= i < |bound| && StopState(s, i) == Some(state)
    requires shows ==> Shows(bound, r.lines, log, i) && AreLeft(s, bound, r.lines, AtEnd(bound), i)
    modifies r`lines
    ensures |r.lines| == |old(r.lines)| && IsSound(r.lines) && LeavesOthers(bound, old(r.lines), r.lines)
    ensures shows ==> Shows(bound, r.lines, log, |bound|) && AreLeft(s, bound, r.lines, Stop(i, true), |bound|)
  {
    hide Shows, AreLeft, G.AreBound, LeavesOthers;
    ghost var was := r.lines;
    OthersStand(bound, was);
    if shows {
      LeftSoFar(s, bound, r.lines, i, true);
      MarkShows(bound, r.lines, log, i, state, true);
      MarkLeaves(s, bound, r.lines, Stop(i, true), i, state, true);
    }
    var id := IdOf(bound, i, |r.lines|);
    OthersStay(bound, r.lines, r.lines, i, Marked(r.lines[id], state, true));
    r.Mark(id, state, true);
    ghost var before := r.lines;
    CancelFrom(r, bound, i + 1, Stop(i, true), s, log, shows);
    OthersStill(bound, was, before, r.lines);
  }

  /** Target i was approved and validated. */
  method ExecuteNext(r: Receipt, bound: seq<Bound>, i: int, s: Surroundings, ghost shows: bool)
    returns (failure: Option<Failure>, ok: bool)
    requires G.AreBound(bound, |r.lines|) && IsSound(r.lines) && 0 <= i < |bound| && s.scan(i) == Yes
    requires shows ==>
               IsFaithful(s) && Shows(bound, r.lines, UnitsBefore(s, bound, i), i)
               && AreLeft(s, bound, r.lines, AtEnd(bound), i)
    modifies r`lines, r`residuals
    ensures |r.lines| == |old(r.lines)| && IsSound(r.lines) && failure == s.execute(i, [bound[i].key]).1
    ensures LeavesOthers(bound, old(r.lines), r.lines)
    ensures shows ==>
              Shows(bound, r.lines, UnitsBefore(s, bound, i + 1), i + 1)
              && AreLeft(s, bound, r.lines, AtEnd(bound), i + 1)
    ensures IsFaithful(s) ==> (ok <==> s.execute(i, [bound[i].key]).1 == None)
  {
    KeysAreKeys(bound, |r.lines|);
    hide Shows, AreLeft, UnitsBefore, G.AreBound;
    var keys := [bound[i].key];
    var result := s.execute(i, keys);
    ghost var was := r.lines;
    if IsFaithful(s) {
      assert AreKeys(keys) ==> AnswersEach(keys, s.execute(i, keys).0);
    }
    ok := ApplyExecution(r, bound, result.0, i, UnitsBefore(s, bound, i));
    NextUnits(s, bound, i);
    if shows {
      ApplyLeaves(s, bound, was, r.lines, AtEnd(bound), i);
    }
    ok, failure := ok && result.1 == None, result.1;
  }

  lemma SkippedIsSound(lines: seq<Line>, id: int)
    requires IsSound(lines) && 0 <= id < |lines|
    ensures IsSound(lines[id := Marked(lines[id], Skipped, false)])
  {
  }

  /** The prompts in turn, each target executed, skipped, or, from the stop on, failed or cancelled. No outcome that was
      recorded is overwritten, and no freed byte is lost. */
  method ExecuteEach(r: Receipt, bound: seq<Bound>, s: Surroundings) returns (ok: bool, ghost stop: Stop)
    requires G.AreBound(bound, |r.lines|) && IsSound(r.lines)
    modifies r`lines, r`residuals
    ensures |r.lines| == |old(r.lines)| && IsSound(r.lines) && IsStop(s, bound, stop)
    ensures LeavesOthers(bound, old(r.lines), r.lines)
    ensures IsFaithful(s) && Shows(bound, old(r.lines), [], 0) ==>
              Shows(bound, r.lines, UnitsBefore(s, bound, stop.number), |bound|)
              && AreLeft(s, bound, r.lines, stop, |bound|)
    ensures IsFaithful(s) ==> (ok <==> EndsWell(s, bound, stop))
  {
    hide Shows, AreLeft, IsFaithful, G.AreBound, UnitsBefore, LeavesOthers, IsSound;
    ghost var was := r.lines;
    OthersStand(bound, was);
    ok := true;
    ghost var shows := IsFaithful(s) && Shows(bound, r.lines, [], 0);
    NothingYet(s, bound, r.lines);
    for i := 0 to |bound|
      invariant |r.lines| == |old(r.lines)| && IsSound(r.lines) && LeavesOthers(bound, was, r.lines)
      invariant forall j :: 0 <= j < i ==> StopState(s, j) == None && !StopsAfter(s, j, bound[j].key)
      invariant IsFaithful(s) ==> (ok <==> forall j :: 0 <= j < i ==> ExecutesWell(s, bound, j))
      invariant shows ==>
                  Shows(bound, r.lines, UnitsBefore(s, bound, i), i)
                  && AreLeft(s, bound, r.lines, AtEnd(bound), i)
    {
      var answer := Ask(s, i);
      ghost var before := r.lines;
      ghost var well := ExecutesWell(s, bound, i);
      if answer.Some? {
        StopHere(r, bound, i, s, answer.value, UnitsBefore(s, bound, i), shows);
        OthersStill(bound, was, before, r.lines);
        return !s.ended(i) && s.scan(i) == NoReader, Stop(i, true);
      }
      if s.scan(i) == No {
        NextUnits(s, bound, i);
        if shows {
          MarkShows(bound, r.lines, UnitsBefore(s, bound, i), i, Skipped, false);
          MarkLeaves(s, bound, r.lines, AtEnd(bound), i, Skipped, false);
        }
        var id := IdOf(bound, i, |r.lines|);
        OthersStay(bound, was, r.lines, i, Marked(r.lines[id], Skipped, false));
        SkippedIsSound(r.lines, id);
        r.Mark(id, Skipped, false);
        continue;
      }
      var failure, executed := ExecuteNext(r, bound, i, s, shows);
      ok := ok && executed;
      OthersStill(bound, was, before, r.lines);
      if failure == Some(Canceled) {
        before := r.lines;
        if shows {
          LeftSoFar(s, bound, r.lines, i + 1, false);
        }
        CancelFrom(r, bound, i + 1, Stop(i + 1, false), s, UnitsBefore(s, bound, i + 1), shows);
        OthersStill(bound, was, before, r.lines);
        return false, Stop(i + 1, false);
      }
    }
    stop := AtEnd(bound);
  }

  /** The prompt for target i: the state it stops in, or None to go on. */
  method Ask(s: Surroundings, i: int) returns (state: Option<State>)
    ensures state == StopState(s, i)
  {
    if s.ended(i) {
      return Some(Cancelled);
    }
    match s.scan(i) {
      case NoReader => return Some(Cancelled);
      case ReadCancelled => return Some(Cancelled);
      case NoLine => return Some(Cancelled);
      case OtherLine => return Some(Cancelled);
      case No => return None;
      case Yes =>
        match s.validation(i) {
          case Valid => return None;
          case ValidationCanceled => return Some(Cancelled);
          case Invalid => return Some(Failed);
        }
    }
  }

  lemma NothingYet(s: Surroundings, bound: seq<Bound>, lines: seq<Line>)
    ensures UnitsBefore(s, bound, 0) == [] && AreLeft(s, bound, lines, AtEnd(bound), 0)
  {
  }

  lemma NextUnits(s: Surroundings, bound: seq<Bound>, n: nat)
    requires n < |bound|
    ensures UnitsBefore(s, bound, n + 1) == UnitsBefore(s, bound, n)
            + if s.scan(n) == Yes then s.execute(n, [bound[n].key]).0 else []
    ensures s.scan(n) != Yes ==> UnitsBefore(s, bound, n + 1) == UnitsBefore(s, bound, n)
  {
  }

  function IdOf(bound: seq<Bound>, i: int, ghost lines: int): (id: int)
    requires G.AreBound(bound, lines) && 0 <= i < |bound|
    ensures id == bound[i].id && 0 <= id < lines
  {
    bound[i].id
  }

  // ----- the whole receipt

  ghost predicate NothingFreed(lines: seq<Line>) {
    forall j :: 0 <= j < |lines| ==> lines[j].freed == 0
  }

  lemma ZeroShows(bound: seq<Bound>, lines: seq<Line>, i: int)
    requires NothingFreed(lines)
    ensures Shows(bound, lines, [], i)
  {
    G.ZeroFreed(lines);
  }

  /** Every line of the ids is marked, and no other is touched. */
  ghost predicate AreMarked(was: seq<Line>, now: seq<Line>, ids: seq<int>, state: State) {
    |now| == |was| && forall j :: 0 <= j < |was| ==> now[j] == if j in ids then Marked(was[j], state, true) else was[j]
  }

  method MarkAll(r: Receipt, ids: seq<int>, state: State)
    requires IsSound(r.lines) && IsOutcome(state)
    modifies r`lines
    ensures IsSound(r.lines) && AreMarked(old(r.lines), r.lines, ids, state)
    ensures NothingFreed(old(r.lines)) ==> NothingFreed(r.lines)
  {
    ghost var was := r.lines;
    for n := 0 to |ids|
      invariant |r.lines| == |was|
      invariant forall j :: 0 <= j < |was| ==>
                  r.lines[j] ==
                    if j in ids[..n] then Marked(was[j], state, true) else was[j]
    {
      assert ids[..n + 1] == ids[..n] + [ids[n]];
      r.Mark(ids[n], state, true);
    }
    assert ids[..|ids|] == ids;
  }

  /** The lines of the selected targets, each once; None when one has no line. */
  method SelectedLines(keys: seq<PathKey>, selected: seq<Option<PathKey>>) returns (ids: Option<seq<int>>)
    ensures ids.Some? <==> forall i :: 0 <= i < |selected| ==> LineOf(keys, selected[i]) >= 0
    ensures ids.Some? ==> forall l :: l in ids.value <==> IsSelected(keys, selected, l)
  {
    hide LineOf;
    var all: seq<int> := [];
    for i := 0 to |selected|
      invariant forall j :: 0 <= j < i ==> LineOf(keys, selected[j]) >= 0
      invariant forall l :: l in all <==> exists j :: 0 <= j < i && LineOf(keys, selected[j]) == l
    {
      var line := LineOf(keys, selected[i]);
      if line < 0 {
        return None;
      }
      if line !in all {
        all := all + [line];
      }
    }
    return Some(all);
  }

  ghost predicate IsSelected(keys: seq<PathKey>, selected: seq<Option<PathKey>>, l: int) {
    exists i :: 0 <= i < |selected| && LineOf(keys, selected[i]) == l
  }

  function LinesOf(bound: seq<Bound>): (r: seq<int>)
    ensures |r| == |bound| && forall i :: 0 <= i < |bound| ==> r[i] == bound[i].id
  {
    seq(|bound|, i requires 0 <= i < |bound| => bound[i].id)
  }

  lemma LinesAre(bound: seq<Bound>)
    ensures forall l :: l in LinesOf(bound) <==> IsPrepared(bound, l)
  {
    forall l ensures l in LinesOf(bound) <==> IsPrepared(bound, l) {
      if IsPrepared(bound, l) {
        var i :| 0 <= i < |bound| && bound[i].id == l;
        assert LinesOf(bound)[i] == l;
      }
    }
  }

  function KeysOf(bound: seq<Bound>): (r: seq<string>)
    ensures |r| == |bound| && forall i :: 0 <= i < |bound| ==> r[i] == bound[i].key
  {
    seq(|bound|, i requires 0 <= i < |bound| => bound[i].key)
  }

  lemma KeysAreKeys(bound: seq<Bound>, lines: int)
    requires G.AreBound(bound, lines)
    ensures AreKeys(KeysOf(bound)) && forall i :: 0 <= i < |bound| ==> AreKeys([bound[i].key])
  {
  }

  /** Selected targets that were not prepared fail, and so, when the two sets differ, do all of either. */
  method RejectMismatch(r: Receipt, ids: seq<int>, bound: seq<Bound>) returns (matched: bool)
    requires IsSound(r.lines) && NothingFreed(r.lines)
    modifies r`lines
    ensures matched <==> forall l :: l in ids <==> IsPrepared(bound, l)
    ensures IsSound(r.lines) && NothingFreed(r.lines) && |r.lines| == |old(r.lines)|
    ensures matched ==> r.lines == old(r.lines)
    ensures !matched ==> AreMarked(old(r.lines), r.lines, ids + LinesOf(bound), Failed)
  {
    var prepared := LinesOf(bound);
    LinesAre(bound);
    var missing: seq<int> := [];
    for i := 0 to |ids|
      invariant forall l :: l in missing <==> l !in prepared && exists j :: 0 <= j < i && ids[j] == l
    {
      if ids[i] !in prepared {
        missing := missing + [ids[i]];
      }
    }
    ghost var was := r.lines;
    MarkAll(r, missing, Failed);
    var extra := false;
    for i := 0 to |prepared|
      invariant extra <==> exists j :: 0 <= j < i && prepared[j] !in ids
    {
      extra := extra || prepared[i] !in ids;
    }
    matched := |missing| == 0 && !extra;
    MatchedMeans(ids, bound, missing, extra);
    if matched {
      return;
    }
    ghost var refused := r.lines;
    MarkAll(r, ids + prepared, Failed);
    forall j | 0 <= j < |was|
      ensures r.lines[j] == if j in ids + prepared then Marked(was[j], Failed, true) else was[j]
    {
      assert j in missing ==> j in ids;
    }
  }

  lemma MatchedMeans(ids: seq<int>, bound: seq<Bound>, missing: seq<int>, extra: bool)
    requires forall l :: l in missing <==> l !in LinesOf(bound) && exists j :: 0 <= j < |ids| && ids[j] == l
    requires extra <==> exists j :: 0 <= j < |bound| && LinesOf(bound)[j] !in ids
    ensures |missing| == 0 && !extra <==> forall l :: l in ids <==> IsPrepared(bound, l)
  {
    var prepared := LinesOf(bound);
    LinesAre(bound);
    if |missing| == 0 && !extra {
      forall l ensures l in ids <==> IsPrepared(bound, l) {
        assert l in ids && l !in prepared ==> l in missing;
        if l in prepared {
          var j :| 0 <= j < |prepared| && prepared[j] == l;
        }
      }
    } else if |missing| > 0 {
      assert missing[0] in missing;
      var j :| 0 <= j < |ids| && ids[j] == missing[0];
      assert ids[j] in ids && !IsPrepared(bound, ids[j]);
    } else {
      assert extra;
      var j :| 0 <= j < |bound| && LinesOf(bound)[j] !in ids;
      assert IsPrepared(bound, LinesOf(bound)[j]) by {
        assert bound[j].id == LinesOf(bound)[j];
      }
    }
  }

  /** How one batch of all bound targets ends: refused at the prompt, refused by validation, or executed. */
  ghost predicate IsBatch(s: Surroundings, force: bool, bound: seq<Bound>, lines: seq<Line>, log: seq<Unit>) {
    if !force && s.scan(0) != Yes then log == [] && AreAll(bound, lines, Cancelled)
    else
      match s.validation(0)
      case Valid => log == s.execute(0, KeysOf(bound)).0
      case ValidationCanceled => log == [] && AreAll(bound, lines, Cancelled)
      case Invalid => log == [] && AreAll(bound, lines, Failed)
  }

  /** The batch was approved and validated, and executed without a failure. */
  predicate BatchEndsWell(s: Surroundings, force: bool, bound: seq<Bound>) {
    (force || s.scan(0) == Yes) && s.validation(0).Valid? && s.execute(0, KeysOf(bound)).1 == None
  }

  ghost predicate AreAll(bound: seq<Bound>, lines: seq<Line>, state: State) {
    forall i :: 0 <= i < |bound| && 0 <= bound[i].id < |lines| ==>
      lines[bound[i].id].state == state && lines[bound[i].id].requested && lines[bound[i].id].freed == 0
  }

  lemma MarkedAreAll(bound: seq<Bound>, was: seq<Line>, now: seq<Line>, ids: seq<int>, state: State)
    requires AreMarked(was, now, ids, state) && forall l :: l in ids <==> IsPrepared(bound, l)
    ensures AreAll(bound, now, state) && LeavesOthers(bound, was, now)
  {
    forall i | 0 <= i < |bound| && 0 <= bound[i].id < |now| ensures bound[i].id in ids {
      assert IsPrepared(bound, bound[i].id);
    }
  }

  method ExecuteAll(r: Receipt, bound: seq<Bound>, ids: seq<int>, force: bool, s: Surroundings)
    returns (ok: bool, ghost log: seq<Unit>)
    requires G.AreBound(bound, |r.lines|) && IsSound(r.lines) && NothingFreed(r.lines)
    requires forall l :: l in ids <==> IsPrepared(bound, l)
    modifies r`lines, r`residuals
    ensures |r.lines| == |old(r.lines)| && IsSound(r.lines) && IsBatch(s, force, bound, r.lines, log)
    ensures LeavesOthers(bound, old(r.lines), r.lines)
    ensures IsFaithful(s) ==> Shows(bound, r.lines, log, |bound|) && (ok <==> BatchEndsWell(s, force, bound))
  {
    KeysAreKeys(bound, |r.lines|);
    hide G.AreBound, Shows, AreAll, AreMarked, NothingFreed;
    log := [];
    ghost var was := r.lines;
    if !force && s.scan(0) != Yes {
      MarkAll(r, ids, Cancelled);
      SameLength(was, r.lines, ids, Cancelled);
      MarkedAreAll(bound, was, r.lines, ids, Cancelled);
      ZeroShows(bound, r.lines, |bound|);
      return false, log;
    }
    if s.validation(0) != G.Validation.Valid {
      var state := if s.validation(0) == G.ValidationCanceled then Cancelled else Failed;
      MarkAll(r, ids, state);
      SameLength(was, r.lines, ids, state);
      MarkedAreAll(bound, was, r.lines, ids, state);
      ZeroShows(bound, r.lines, |bound|);
      return false, log;
    }
    var keys := KeysOf(bound);
    var result := s.execute(0, keys);
    ZeroShows(bound, r.lines, 0);
    if IsFaithful(s) {
      assert AnswersEach(keys, s.execute(0, keys).0);
    }
    ok := ApplyExecution(r, bound, result.0, 0, []);
    assert [] + result.0 == result.0;
    ok, log := ok && result.1 == None, result.0;
  }

  lemma SameLength(was: seq<Line>, now: seq<Line>, ids: seq<int>, state: State)
    requires AreMarked(was, now, ids, state)
    ensures |now| == |was|
  {
  }

  /** Every logged unit is on its line, and the freed total is theirs. */
  ghost predicate IsRecorded(bound: seq<Bound>, lines: seq<Line>, log: seq<Unit>) {
    && (forall n :: 0 <= n < |log| ==> Stands(bound, lines, log[n], |bound|))
    && FreedSum(lines) == G.BytesRecorded(log)
  }

  lemma FinallyRecorded(bound: seq<Bound>, lines: seq<Line>, log: seq<Unit>)
    requires Shows(bound, lines, log, |bound|)
    ensures IsRecorded(bound, AllSettled(lines), log)
  {
    SettlingFreesNothing(lines);
    hide FreedSum, G.BytesRecorded, Applied, G.IndexOf;
    forall n | 0 <= n < |log| ensures Stands(bound, AllSettled(lines), log[n], |bound|) {
      assert Stands(bound, lines, log[n], |bound|);
      AppliedState(log[n]);
    }
  }

  lemma SettlingLeaves(s: Surroundings, bound: seq<Bound>, lines: seq<Line>, stop: Stop, force: bool, log: seq<Unit>)
    ensures AreLeft(s, bound, lines, stop, |bound|) ==> AreLeft(s, bound, AllSettled(lines), stop, |bound|)
    ensures IsBatch(s, force, bound, lines, log) ==> IsBatch(s, force, bound, AllSettled(lines), log)
  {
    if AreLeft(s, bound, lines, stop, |bound|) {
      forall i | 0 <= i < |bound| && 0 <= bound[i].id < |lines| && (i >= stop.number || s.scan(i) == No)
        ensures StateFor(s, i, stop) != Pending
      {
        assert s.ended(i) == s.ended(i);
      }
    }
  }

  /** How far a run came: what was bound, whether anything was asked or executed, and the units executed. */
  datatype Course = Course(bound: seq<Bound>, begun: bool, stop: Stop, log: seq<Unit>)

  /** The targets are bindable, and the prepared ones are exactly the selected ones. */
  ghost predicate MayBegin(keys: seq<PathKey>, selected: seq<Option<PathKey>>, prepared: seq<Prepared>,
                           bound: seq<Bound>) {
    && AreBindable(keys, prepared) && |bound| == |prepared| && G.AreBound(bound, |keys|)
    && (forall i :: 0 <= i < |prepared| ==> G.Bound(prepared[i].key, LineOf(keys, prepared[i].path)) in bound)
    && (forall i :: 0 <= i < |selected| ==> LineOf(keys, selected[i]) >= 0)
    && forall l :: IsSelected(keys, selected, l) <==> IsPrepared(bound, l)
  }

  /** Every prepared target has its own unchanged key and line, every selected one has a line, and the lines of the
      prepared are those of the selected. */
  ghost predicate CanStart(keys: seq<PathKey>, selected: seq<Option<PathKey>>, prepared: seq<Prepared>) {
    && AreBindable(keys, prepared) && (forall i :: 0 <= i < |selected| ==> LineOf(keys, selected[i]) >= 0)
    && forall l :: IsSelected(keys, selected, l) <==> IsLineOf(keys, prepared, l)
  }

  ghost predicate IsLineOf(keys: seq<PathKey>, prepared: seq<Prepared>, l: int) {
    exists i :: 0 <= i < |prepared| && LineOf(keys, prepared[i].path) == l
  }

  /** Before a run is refused its lines stand as they are, unless every target has a line of its own and the prepared
      differ from the selected: then the lines of both have failed. */
  ghost predicate AreRefused(keys: seq<PathKey>, selected: seq<Option<PathKey>>, prepared: seq<Prepared>,
                             was: seq<Line>, now: seq<Line>) {
    && |now| == |was|
    && forall j :: 0 <= j < |was| ==>
         now[j] == if IsRefused(keys, selected, prepared, j) then Marked(was[j], Failed, true) else was[j]
  }

  lemma NotRefused(keys: seq<PathKey>, selected: seq<Option<PathKey>>, prepared: seq<Prepared>, lines: seq<Line>)
    requires !AreBindable(keys, prepared) || !forall i :: 0 <= i < |selected| ==> LineOf(keys, selected[i]) >= 0
    ensures AreRefused(keys, selected, prepared, lines, lines)
  {
    hide AreBindable, LineOf;
  }

  lemma RefusedBy(keys: seq<PathKey>, selected: seq<Option<PathKey>>, prepared: seq<Prepared>, ids: seq<int>,
                  bound: seq<Bound>, was: seq<Line>, now: seq<Line>)
    requires AreBindable(keys, prepared) && (forall i :: 0 <= i < |selected| ==> LineOf(keys, selected[i]) >= 0)
    requires forall l :: l in ids <==> IsSelected(keys, selected, l)
    requires forall l :: IsPrepared(bound, l) <==> IsLineOf(keys, prepared, l)
    requires !forall l :: l in ids <==> IsPrepared(bound, l)
    requires AreMarked(was, now, ids + LinesOf(bound), Failed)
    ensures AreRefused(keys, selected, prepared, was, now) && !CanStart(keys, selected, prepared)
  {
    hide AreBindable, IsSelected, IsPrepared, IsLineOf, LineOf;
    LinesAre(bound);
  }

  /** The lines of targets that were not executed are as the plan decided them, and failed where they were selected or
      where the run was refused over them. */
  ghost predicate OthersAsDecided(decisions: seq<Decision>, keys: seq<PathKey>, selected: seq<Option<PathKey>>,
                                  prepared: seq<Prepared>, c: Course, lines: seq<Line>) {
    && |lines| == |decisions|
    && forall j :: 0 <= j < |lines| && !(c.begun && IsPrepared(c.bound, j)) ==>
         lines[j] == if decisions[j] == DecidedSelected || IsRefused(keys, selected, prepared, j)
                     then Line(Failed, true, false, 0, None) else FirstLine(decisions[j])
  }

  /** Targets and selection can be compared and differ, and the line is one of theirs. */
  ghost predicate IsRefused(keys: seq<PathKey>, selected: seq<Option<PathKey>>, prepared: seq<Prepared>, j: int) {
    && AreBindable(keys, prepared) && (forall i :: 0 <= i < |selected| ==> LineOf(keys, selected[i]) >= 0)
    && !CanStart(keys, selected, prepared)
    && (IsSelected(keys, selected, j) || IsLineOf(keys, prepared, j))
  }

  lemma OtherLines(decisions: seq<Decision>, keys: seq<PathKey>, selected: seq<Option<PathKey>>,
                   prepared: seq<Prepared>, c: Course, first: seq<Line>, begun: seq<Line>, lines: seq<Line>)
    requires |first| == |decisions| && forall i :: 0 <= i < |decisions| ==> first[i] == FirstLine(decisions[i])
    requires if CanStart(keys, selected, prepared) then begun == first
             else AreRefused(keys, selected, prepared, first, begun)
    requires if c.begun then LeavesOthers(c.bound, begun, lines) else lines == begun
    ensures OthersAsDecided(decisions, keys, selected, prepared, c, AllSettled(lines))
  {
    hide CanStart, AreBindable, IsSelected, IsLineOf, LineOf, IsPrepared;
  }

  /** From the plan's decisions to the finished receipt. Nothing is asked or executed unless every prepared target is
      bound and the prepared are the selected; the receipt always adds up; and with an executor that answers each key
      once, every unit stands on its line and the freed total is theirs. */
  method ExecuteReceipt(decisions: seq<Decision>, keys: seq<PathKey>, selected: seq<Option<PathKey>>,
                        prepared: seq<Prepared>,
                        force: bool, interactive: bool, s: Surroundings)
    returns (r: Receipt, ok: bool, ghost c: Course)
    requires |decisions| == |keys|
    ensures fresh(r) && |r.lines| == |decisions| && IsSound(r.lines) && IsAccounted(r.totals)
    ensures r.totals == TotalsOf(r.lines) && r.status == StatusOf(r.totals)
    ensures c.begun <==> prepared != [] && CanStart(keys, selected, prepared)
    ensures c.begun ==> MayBegin(keys, selected, prepared, c.bound)
    ensures !c.begun ==> c.log == []
    ensures OthersAsDecided(decisions, keys, selected, prepared, c, r.lines)
    ensures IsFaithful(s) ==>
              (ok <==> CanStart(keys, selected, prepared)
                       && (!c.begun || if interactive then EndsWell(s, c.bound, c.stop)
                           else BatchEndsWell(s, force, c.bound)))
    ensures IsFaithful(s) ==> IsRecorded(c.bound, r.lines, c.log)
    ensures c.begun && interactive && IsFaithful(s) ==>
              IsStop(s, c.bound, c.stop) && c.log == UnitsBefore(s, c.bound, c.stop.number)
              && AreLeft(s, c.bound, r.lines, c.stop, |c.bound|)
    ensures c.begun && !interactive ==> IsBatch(s, force, c.bound, r.lines, c.log)
  {
    hide *;
    r := new Receipt(decisions);
    FirstLines(decisions, r.lines);
    ghost var first := r.lines;
    var ids: seq<int>, bound: seq<Bound>, begin: bool;
    ids, bound, begin := Begin(r, keys, selected, prepared);
    ghost var begun := r.lines;
    c := Course(bound, begin && |prepared| > 0, AtEnd(bound), []);
    ok := begin;
    ZeroShows(bound, r.lines, |bound|);
    ZeroShows(bound, r.lines, 0);
    if begin && |prepared| > 0 {
      BoundOf(keys, selected, prepared, bound, |r.lines|);
      if interactive {
        ghost var stop;
        ok, stop := ExecuteEach(r, bound, s);
        StopInside(s, bound, stop);
        c := Course(bound, true, stop, UnitsBefore(s, bound, stop.number));
      } else {
        ghost var log;
        ok, log := ExecuteAll(r, bound, ids, force, s);
        c := Course(bound, true, AtEnd(bound), log);
      }
    }
    if IsFaithful(s) {
      FinallyRecorded(bound, r.lines, c.log);
    }
    SettlingLeaves(s, bound, r.lines, c.stop, force, c.log);
    OtherLines(decisions, keys, selected, prepared, c, first, begun, r.lines);
    SoundLinesAreAccounted(r.lines);
    var accounted := r.Finalize();
    ok := ok && accounted;
  }

  lemma FirstLines(decisions: seq<Decision>, lines: seq<Line>)
    requires |lines| == |decisions| && forall i :: 0 <= i < |decisions| ==> lines[i] == FirstLine(decisions[i])
    ensures NothingFreed(lines) && IsSound(lines)
  {
  }

  lemma StopInside(s: Surroundings, bound: seq<Bound>, stop: Stop)
    requires IsStop(s, bound, stop)
    ensures 0 <= stop.number <= |bound|
  {
  }

  lemma BoundOf(keys: seq<PathKey>, selected: seq<Option<PathKey>>, prepared: seq<Prepared>, bound: seq<Bound>,
                lines: int)
    requires MayBegin(keys, selected, prepared, bound) && lines == |keys|
    ensures G.AreBound(bound, lines)
  {
  }

  lemma PreparedLines(keys: seq<PathKey>, prepared: seq<Prepared>, bound: seq<Bound>)
    requires forall i :: 0 <= i < |prepared| ==> G.Bound(prepared[i].key, LineOf(keys, prepared[i].path)) in bound
    requires forall b :: b in bound ==>
               exists i :: 0 <= i < |prepared| && b == G.Bound(prepared[i].key, LineOf(keys, prepared[i].path))
    ensures forall l :: IsPrepared(bound, l) <==> IsLineOf(keys, prepared, l)
  {
    hide LineOf;
    forall l ensures IsPrepared(bound, l) <==> IsLineOf(keys, prepared, l) {
      if IsPrepared(bound, l) {
        var j :| 0 <= j < |bound| && bound[j].id == l;
        assert bound[j] in bound;
      }
      if IsLineOf(keys, prepared, l) {
        var i :| 0 <= i < |prepared| && LineOf(keys, prepared[i].path) == l;
        var j :| 0 <= j < |bound| && bound[j] == G.Bound(prepared[i].key, l);
        assert bound[j].id == l;
      }
    }
  }

  /** Binding, ordering, and comparing the prepared with the selected. */
  method Begin(r: Receipt, keys: seq<PathKey>, selected: seq<Option<PathKey>>, prepared: seq<Prepared>)
    returns (ids: seq<int>, bound: seq<Bound>, begin: bool)
    requires |r.lines| == |keys| && IsSound(r.lines) && NothingFreed(r.lines)
    modifies r`lines
    ensures |r.lines| == |keys| && IsSound(r.lines) && NothingFreed(r.lines)
    ensures begin <==> CanStart(keys, selected, prepared)
    ensures begin ==> MayBegin(keys, selected, prepared, bound) && forall l :: l in ids <==> IsPrepared(bound, l)
    ensures begin ==> r.lines == old(r.lines)
    ensures !begin ==> AreRefused(keys, selected, prepared, old(r.lines), r.lines)
  {
    hide AreBindable, G.AreBound, LineOf, SortBy, IsSelected, IsPrepared, IsLineOf, AreMarked, NothingFreed;
    ids, bound, begin := [], [], false;
    var attempt := BindPrepared(keys, prepared);
    if attempt == None {
      NotRefused(keys, selected, prepared, r.lines);
      return;
    }
    SortedIsBound(attempt.value, |keys|);
    bound := SortBy(attempt.value, EarlierLine);
    forall i | 0 <= i < |prepared| ensures G.Bound(prepared[i].key, LineOf(keys, prepared[i].path)) in bound {
      assert attempt.value[i] in attempt.value;
    }
    PreparedLines(keys, prepared, bound);
    var lines := SelectedLines(keys, selected);
    if lines == None {
      NotRefused(keys, selected, prepared, r.lines);
      return;
    }
    ids := lines.value;
    ghost var was := r.lines;
    begin := RejectMismatch(r, ids, bound);
    if !begin {
      RefusedBy(keys, selected, prepared, ids, bound, was, r.lines);
    }
  }
}
