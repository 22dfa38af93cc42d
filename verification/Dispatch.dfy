/** Dispatching provider scans: goroutines behind a gate and a semaphore, one result channel, and its closer, as
    interleaved steps. */
module Dispatch {

  const MAX_PARALLEL := 2

  datatype Outcome = Found | ContextError | OtherError

  /** Where a provider's goroutine is. Holding means that it has a semaphore slot. */
  datatype Phase =
    | Unborn
    | AtGate
    | AtSemaphore
    | Scanning
    | Sending(outcome: Outcome, holding: bool)
    | Sent
    | Leaving
    | Gone

  datatype Message = Message(provider: int, outcome: Outcome)

  /** waiting is the wait group's counter; buffer the result channel, as long as there are providers. */
  datatype State = State(phases: seq<Phase>, spawned: int, gateOpen: bool, slots: int, waiting: int, cancelled: bool,
                         closerStarted: bool, buffer: seq<Message>, closed: bool, received: seq<Message>,
                           finished: bool)

  datatype Step =
    | Spawn
    | OpenGate
    | StartCloser
    | PassGate(i: int)
    | AbandonGate(i: int)
    | Acquire(i: int)
    | AbandonSemaphore(i: int)
    | FinishScan(i: int, outcome: Outcome)
    | Send(i: int)
    | Release(i: int)
    | Leave(i: int)
    | Close
    | Receive
    | EndOfResults
    | Cancel

  function Init(n: nat): State {
    State(seq(n, i => Unborn), 0, false, 0, 0, false, false, [], false, [], false)
  }

  predicate IsAt(s: State, i: int, p: Phase) {
    0 <= i < |s.phases| && s.phases[i] == p
  }

  predicate IsSending(s: State, i: int) {
    0 <= i < |s.phases| && s.phases[i].Sending?
  }

  predicate Enabled(s: State, step: Step) {
    match step
    case Spawn => 0 <= s.spawned < |s.phases|
    case OpenGate => s.spawned == |s.phases| && !s.gateOpen
    case StartCloser => s.gateOpen && !s.closerStarted
    case PassGate(i) => IsAt(s, i, AtGate) && s.gateOpen
    case AbandonGate(i) => IsAt(s, i, AtGate) && s.cancelled
    case Acquire(i) => IsAt(s, i, AtSemaphore) && s.slots < MAX_PARALLEL
    case AbandonSemaphore(i) => IsAt(s, i, AtSemaphore) && s.cancelled
    case FinishScan(i, _) => IsAt(s, i, Scanning)
    case Send(i) => IsSending(s, i) && |s.buffer| < |s.phases| && !s.closed
    case Release(i) => IsAt(s, i, Sent)
    case Leave(i) => IsAt(s, i, Leaving)
    case Close => s.closerStarted && s.waiting == 0 && !s.closed
    case Receive => s.closerStarted && |s.buffer| > 0 && !s.finished
    case EndOfResults => s.closerStarted && s.closed && |s.buffer| == 0 && !s.finished
    case Cancel => !s.cancelled
  }

  function Apply(s: State, step: Step): State
    requires Enabled(s, step)
  {
    match step
    case Spawn => s.(phases := s.phases[s.spawned := AtGate], spawned := s.spawned + 1, waiting := s.waiting + 1)
    case OpenGate => s.(gateOpen := true)
    case StartCloser => s.(closerStarted := true)
    case PassGate(i) => s.(phases := s.phases[i := AtSemaphore])
    case AbandonGate(i) => s.(phases := s.phases[i := Sending(ContextError, false)])
    case Acquire(i) => s.(phases := s.phases[i := Scanning], slots := s.slots + 1)
    case AbandonSemaphore(i) => s.(phases := s.phases[i := Sending(ContextError, false)])
    case FinishScan(i, outcome) =>
      s.(phases := s.phases[i := Sending(outcome, true)], cancelled := s.cancelled || outcome == ContextError)
    case Send(i) =>
      s.(phases := s.phases[i := if s.phases[i].holding then Sent else Leaving],
      buffer := s.buffer + [Message(i, s.phases[i].outcome)])
    case Release(i) => s.(phases := s.phases[i := Leaving], slots := s.slots - 1)
    case Leave(i) => s.(phases := s.phases[i := Gone], waiting := s.waiting - 1)
    case Close => s.(closed := true)
    case Receive => s.(buffer := s.buffer[1..], received := s.received + [s.buffer[0]])
    case EndOfResults => s.(finished := true)
    case Cancel => s.(cancelled := true)
  }

  // ----- sums over the goroutines

  function Holds(p: Phase): nat {
    if p == Scanning || p == Sent || (p.Sending? && p.holding) then 1 else 0
  }

  function Lives(p: Phase): nat {
    if p == Unborn || p == Gone then 0 else 1
  }

  function Owes(p: Phase): nat {
    if p == Sent || p == Leaving || p == Gone then 0 else 1
  }

  function Work(p: Phase): nat {
    match p
    case Unborn => 8
    case AtGate => 7
    case AtSemaphore => 6
    case Scanning => 5
    case Sending(_, _) => 4
    case Sent => 2
    case Leaving => 1
    case Gone => 0
  }

  function Total(f: Phase -> nat, phases: seq<Phase>): nat {
    if phases == [] then 0 else Total(f, phases[..|phases| - 1]) + f(phases[|phases| - 1])
  }

  lemma {:induction false} TotalAfter(f: Phase -> nat, phases: seq<Phase>, i: int, p: Phase)
    requires 0 <= i < |phases|
    ensures Total(f, phases[i := p]) + f(phases[i]) == Total(f, phases) + f(p)
    ensures f(phases[i]) <= Total(f, phases)
  {
    var front, now := phases[..|phases| - 1], phases[i := p];
    if i < |front| {
      TotalAfter(f, front, i, p);
      assert now[..|now| - 1] == front[i := p];
    } else {
      assert now[..|now| - 1] == front;
    }
  }

  /** A positive total comes from somewhere. */
  lemma {:induction false} TotalHasPart(f: Phase -> nat, phases: seq<Phase>)
    ensures Total(f, phases) > 0 <==> exists i :: 0 <= i < |phases| && f(phases[i]) > 0
  {
    if phases != [] {
      var front := phases[..|phases| - 1];
      TotalHasPart(f, front);
      if Total(f, front) > 0 {
        var i :| 0 <= i < |front| && f(front[i]) > 0;
        assert f(phases[i]) > 0;
      }
      if i :| 0 <= i < |phases| && f(phases[i]) > 0 {
        assert i < |front| ==> f(front[i]) > 0;
      }
    }
  }

  lemma {:induction false} TotalOfUnborn(f: Phase -> nat, n: nat, phases: seq<Phase>)
    requires |phases| == n && forall i :: 0 <= i < n ==> phases[i] == Unborn
    ensures Total(f, phases) == n * f(Unborn)
  {
    if n > 0 {
      TotalOfUnborn(f, n - 1, phases[..n - 1]);
      assert n * f(Unborn) == (n - 1) * f(Unborn) + f(Unborn);
    }
  }

  // ----- what every step keeps

  /** Every message is from a provider that owes none, and no provider has two. */
  ghost predicate MessagesAreRight(s: State) {
    var all := s.received + s.buffer;
    && (forall k :: 0 <= k < |all| ==> 0 <= all[k].provider < |s.phases| && Owes(s.phases[all[k].provider]) == 0)
    && (forall k, l :: 0 <= k < l < |all| ==> all[k].provider != all[l].provider)
    && |all| + Total(Owes, s.phases) == |s.phases|
  }

  ghost predicate IsSound(s: State) {
    && 0 <= s.spawned <= |s.phases|
    && (forall i :: 0 <= i < |s.phases| ==> (s.phases[i] == Unborn <==> s.spawned <= i))
    && (s.gateOpen ==> s.spawned == |s.phases|) && (s.closerStarted ==> s.gateOpen)
    && s.slots == Total(Holds, s.phases) && 0 <= s.slots <= MAX_PARALLEL
    && s.waiting == Total(Lives, s.phases)
    && (s.closed ==> s.closerStarted && s.waiting == 0) && (s.finished ==> s.closed && |s.buffer| == 0)
    && MessagesAreRight(s)
  }

  lemma InitIsSound(n: nat)
    ensures IsSound(Init(n))
  {
    TotalOfUnborn(Holds, n, Init(n).phases);
    TotalOfUnborn(Lives, n, Init(n).phases);
    TotalOfUnborn(Owes, n, Init(n).phases);
  }

  /** What moving one goroutine does to the three totals. */
  lemma Moved(phases: seq<Phase>, i: int, p: Phase)
    requires 0 <= i < |phases|
    ensures Total(Holds, phases[i := p]) + Holds(phases[i]) == Total(Holds, phases) + Holds(p)
    ensures Total(Lives, phases[i := p]) + Lives(phases[i]) == Total(Lives, phases) + Lives(p)
    ensures Total(Owes, phases[i := p]) + Owes(phases[i]) == Total(Owes, phases) + Owes(p)
    ensures Total(Work, phases[i := p]) + Work(phases[i]) == Total(Work, phases) + Work(p)
    ensures Holds(phases[i]) <= Total(Holds, phases) && Lives(phases[i]) <= Total(Lives, phases)
            && Owes(phases[i]) <= Total(Owes, phases)
  {
    TotalAfter(Holds, phases, i, p);
    TotalAfter(Lives, phases, i, p);
    TotalAfter(Owes, phases, i, p);
    TotalAfter(Work, phases, i, p);
  }

  /** A sender's send neither blocks nor follows the close. */
  lemma SendIsFree(s: State, i: int)
    requires IsSound(s) && IsSending(s, i)
    ensures |s.buffer| < |s.phases| && !s.closed && Enabled(s, Send(i))
  {
    Moved(s.phases, i, Gone);
  }

  lemma NotYetSent(s: State, i: int, k: int)
    requires MessagesAreRight(s) && 0 <= i < |s.phases| && Owes(s.phases[i]) == 1 && 0 <= k < |s.received + s.buffer|
    ensures (s.received + s.buffer)[k].provider != i
  {
  }

  lemma SendKeepsMessages(s: State, i: int)
    requires IsSound(s) && IsSending(s, i) && Enabled(s, Send(i))
    ensures MessagesAreRight(Apply(s, Send(i)))
  {
    hide Total;
    var next := Apply(s, Send(i));
    Moved(s.phases, i, next.phases[i]);
    var all, more := s.received + s.buffer, next.received + next.buffer;
    assert more == all + [Message(i, s.phases[i].outcome)];
    forall k | 0 <= k < |all| ensures all[k].provider != i {
      NotYetSent(s, i, k);
    }
  }

  lemma ReceiveKeepsMessages(s: State)
    requires IsSound(s) && Enabled(s, Receive)
    ensures MessagesAreRight(Apply(s, Receive))
  {
    var next := Apply(s, Receive);
    assert next.received + next.buffer == s.received + s.buffer;
  }

  lemma MoveKeepsMessages(s: State, i: int, p: Phase)
    requires MessagesAreRight(s) && 0 <= i < |s.phases| && Owes(p) == Owes(s.phases[i])
    ensures MessagesAreRight(s.(phases := s.phases[i := p]))
  {
    hide Total;
    Moved(s.phases, i, p);
  }

  lemma EarlyStepKeepsSound(s: State, step: Step)
    requires IsSound(s) && Enabled(s, step)
    requires step.Spawn? || step.PassGate? || step.AbandonGate? || step.Acquire? || step.AbandonSemaphore?
    ensures IsSound(Apply(s, step))
  {
    hide Total, MessagesAreRight;
    match step {
      case Spawn => Moves(s, s.spawned, AtGate);
      case PassGate(i) => Moves(s, i, AtSemaphore);
      case AbandonGate(i) => Moves(s, i, Sending(ContextError, false));
      case Acquire(i) => Moves(s, i, Scanning);
      case AbandonSemaphore(i) => Moves(s, i, Sending(ContextError, false));
    }
  }

  lemma LateStepKeepsSound(s: State, step: Step)
    requires IsSound(s) && Enabled(s, step) && (step.FinishScan? || step.Send? || step.Release? || step.Leave?)
    ensures IsSound(Apply(s, step))
  {
    hide Total, MessagesAreRight;
    match step {
      case FinishScan(i, outcome) => Moves(s, i, Sending(outcome, true));
      case Send(i) => SendKeepsMessages(s, i); Moved(s.phases, i, Apply(s, step).phases[i]);
      case Release(i) => Moves(s, i, Leaving);
      case Leave(i) => Moves(s, i, Gone);
    }
  }

  lemma OtherStepKeepsSound(s: State, step: Step)
    requires IsSound(s) && Enabled(s, step)
    requires step.OpenGate? || step.StartCloser? || step.Close? || step.Receive? || step.EndOfResults? || step.Cancel?
    ensures IsSound(Apply(s, step))
  {
    hide Total, MessagesAreRight;
    if step == Receive {
      ReceiveKeepsMessages(s);
    } else {
      SameMessages(s, Apply(s, step));
    }
  }

  /** Every step of every interleaving keeps the state sound. */
  lemma StepKeepsSound(s: State, step: Step)
    requires IsSound(s) && Enabled(s, step)
    ensures IsSound(Apply(s, step))
  {
    hide *;
    if step.Spawn? || step.PassGate? || step.AbandonGate? || step.Acquire? || step.AbandonSemaphore? {
      EarlyStepKeepsSound(s, step);
    } else if step.FinishScan? || step.Send? || step.Release? || step.Leave? {
      LateStepKeepsSound(s, step);
    } else {
      OtherStepKeepsSound(s, step);
    }
  }

  lemma SameMessages(s: State, t: State)
    requires MessagesAreRight(s) && t.phases == s.phases && t.received == s.received && t.buffer == s.buffer
    ensures MessagesAreRight(t)
  {
    hide Total;
  }

  lemma Moves(s: State, i: int, p: Phase)
    requires MessagesAreRight(s) && 0 <= i < |s.phases| && Owes(p) == Owes(s.phases[i])
    ensures forall t: State :: t.phases == s.phases[i := p] && t.received == s.received && t.buffer == s.buffer ==>
              MessagesAreRight(t)
    ensures Total(Holds, s.phases[i := p]) + Holds(s.phases[i]) == Total(Holds, s.phases) + Holds(p)
    ensures Total(Lives, s.phases[i := p]) + Lives(s.phases[i]) == Total(Lives, s.phases) + Lives(p)
    ensures Holds(s.phases[i]) <= Total(Holds, s.phases) && Lives(s.phases[i]) <= Total(Lives, s.phases)
  {
    MoveKeepsMessages(s, i, p);
    Moved(s.phases, i, p);
    forall t: State | t.phases == s.phases[i := p] && t.received == s.received && t.buffer == s.buffer
      ensures MessagesAreRight(t)
    {
      SameMessages(s.(phases := s.phases[i := p]), t);
    }
  }

  // ----- runs

  ghost predicate IsRun(n: nat, steps: seq<Step>, states: seq<State>) {
    && |states| == |steps| + 1 && states[0] == Init(n)
    && forall k :: 0 <= k < |steps| ==> Enabled(states[k], steps[k]) && states[k + 1] == Apply(states[k], steps[k])
  }

  lemma {:induction false} RunsAreSound(n: nat, steps: seq<Step>, states: seq<State>, k: nat)
    requires IsRun(n, steps, states) && k < |states|
    ensures IsSound(states[k]) && |states[k].phases| == n
  {
    hide IsSound, Enabled, Apply;
    if k == 0 {
      InitIsSound(n);
    } else {
      RunsAreSound(n, steps, states, k - 1);
      StepKeepsSound(states[k - 1], steps[k - 1]);
      StepKeepsCount(states[k - 1], steps[k - 1]);
    }
  }

  lemma StepKeepsCount(s: State, step: Step)
    requires Enabled(s, step)
    ensures |Apply(s, step).phases| == |s.phases|
  {
  }

  /** In every state of every run at most two scans are in flight. */
  lemma AtMostTwoScans(n: nat, steps: seq<Step>, states: seq<State>, k: nat)
    requires IsRun(n, steps, states) && k < |states|
    ensures forall a, b, c :: 0 <= a < b < c < n ==>
              !(IsAt(states[k], a, Scanning) && IsAt(states[k], b, Scanning) && IsAt(states[k], c, Scanning))
  {
    RunsAreSound(n, steps, states, k);
    var s := states[k];
    forall a, b, c | 0 <= a < b < c < n && IsAt(s, a, Scanning) && IsAt(s, b, Scanning) && IsAt(s, c, Scanning)
      ensures false
    {
      var p1 := s.phases[a := Gone];
      var p2 := p1[b := Gone];
      TotalAfter(Holds, s.phases, a, Gone);
      TotalAfter(Holds, p1, b, Gone);
      TotalAfter(Holds, p2, c, Gone);
    }
  }

  /** Once the consumer has seen the channel closed, it has received exactly one message from every provider. */
  lemma EveryProviderReports(n: nat, steps: seq<Step>, states: seq<State>, k: nat)
    requires IsRun(n, steps, states) && k < |states| && states[k].finished
    ensures |states[k].received| == n && |states[k].phases| == n
    ensures forall i, j :: 0 <= i < j < n ==> states[k].received[i].provider != states[k].received[j].provider
    ensures forall i :: 0 <= i < n ==> 0 <= states[k].received[i].provider < n
    ensures forall i :: 0 <= i < n ==> states[k].phases[i] == Gone
  {
    RunsAreSound(n, steps, states, k);
    var s := states[k];
    TotalHasPart(Lives, s.phases);
    TotalHasPart(Owes, s.phases);
    assert s.received + s.buffer == s.received;
    forall i | 0 <= i < n ensures s.phases[i] == Gone {
      assert Lives(s.phases[i]) == 0;
    }
    assert forall i :: 0 <= i < n ==> Owes(s.phases[i]) == 0;
  }

  // ----- progress

  /** Whatever is left to do; the environment may still cancel once. */
  ghost function Remaining(s: State): int {
    Total(Work, s.phases) + |s.buffer| + (if s.gateOpen then 0 else 1) + (if s.closerStarted then 0 else 1)
    + (if s.closed then 0 else 1) + (if s.finished then 0 else 1) + (if s.cancelled then 0 else 1)
  }

  lemma StepsUseUpWork(s: State, step: Step)
    requires Enabled(s, step) && IsSound(s)
    ensures Remaining(Apply(s, step)) < Remaining(s)
  {
    hide Total, MessagesAreRight;
    match step {
      case Spawn => Moved(s.phases, s.spawned, AtGate);
      case PassGate(i) => Moved(s.phases, i, AtSemaphore);
      case AbandonGate(i) => Moved(s.phases, i, Sending(ContextError, false));
      case Acquire(i) => Moved(s.phases, i, Scanning);
      case AbandonSemaphore(i) => Moved(s.phases, i, Sending(ContextError, false));
      case FinishScan(i, outcome) => Moved(s.phases, i, Sending(outcome, true));
      case Send(i) => Moved(s.phases, i, Apply(s, step).phases[i]);
      case Release(i) => Moved(s.phases, i, Leaving);
      case Leave(i) => Moved(s.phases, i, Gone);
      case OpenGate =>
      case StartCloser =>
      case Close =>
      case Receive =>
      case EndOfResults =>
      case Cancel =>
    }
  }

  /** No run is longer than eight steps a provider and five more. */
  lemma {:induction false} RunsAreBounded(n: nat, steps: seq<Step>, states: seq<State>, k: nat)
    requires IsRun(n, steps, states) && k < |states|
    ensures k + Remaining(states[k]) <= 8 * n + 5
  {
    if k == 0 {
      TotalOfUnborn(Work, n, Init(n).phases);
    } else {
      hide Enabled, Apply, Remaining, IsSound;
      RunsAreSound(n, steps, states, k - 1);
      RunsAreBounded(n, steps, states, k - 1);
      StepsUseUpWork(states[k - 1], steps[k - 1]);
    }
  }

  /** Unless the consumer is done some step other than cancelling is possible: nothing ever deadlocks. */
  lemma NeverStuck(s: State) returns (step: Step)
    requires IsSound(s) && !s.finished
    ensures Enabled(s, step) && step != Cancel
  {
    if s.spawned < |s.phases| {
      step := Spawn;
    } else if !s.gateOpen {
      step := OpenGate;
    } else if !s.closerStarted {
      step := StartCloser;
    } else if s.waiting > 0 {
      TotalHasPart(Lives, s.phases);
      var i :| 0 <= i < |s.phases| && Lives(s.phases[i]) > 0;
      step := LiveStep(s, i);
    } else if !s.closed {
      step := Close;
    } else if |s.buffer| > 0 {
      step := Receive;
    } else {
      step := EndOfResults;
    }
  }

  lemma LiveStep(s: State, i: int) returns (step: Step)
    requires IsSound(s) && s.gateOpen && 0 <= i < |s.phases| && Lives(s.phases[i]) > 0
    ensures Enabled(s, step) && step != Cancel
  {
    if s.phases[i] == AtSemaphore && s.slots == MAX_PARALLEL {
      TotalHasPart(Holds, s.phases);
      var j :| 0 <= j < |s.phases| && Holds(s.phases[j]) > 0;
      step := OwnStep(s, j);
    } else {
      step := OwnStep(s, i);
    }
  }

  lemma OwnStep(s: State, i: int) returns (step: Step)
    requires IsSound(s) && s.gateOpen && 0 <= i < |s.phases| && Lives(s.phases[i]) > 0
    requires s.phases[i] == AtSemaphore ==> s.slots < MAX_PARALLEL
    ensures Enabled(s, step) && step != Cancel
  {
    match s.phases[i] {
      case AtGate => step := PassGate(i);
      case AtSemaphore => step := Acquire(i);
      case Scanning => step := FinishScan(i, Found);
      case Sending(_, _) => step := Send(i); SendIsFree(s, i);
      case Sent => step := Release(i);
      case Leaving => step := Leave(i);
    }
  }

  /** Nothing but cancelling is left to do. */
  ghost predicate IsAtRest(s: State) {
    forall step :: Enabled(s, step) ==> step == Cancel
  }

  /** A sound state is at rest exactly when the consumer is done. */
  lemma RestsExactly(s: State)
    requires IsSound(s)
    ensures IsAtRest(s) <==> s.finished
  {
    if s.finished {
      TotalHasPart(Lives, s.phases);
      forall i | 0 <= i < |s.phases| ensures s.phases[i] == Gone {
        assert Lives(s.phases[i]) == 0;
      }
    } else {
      var step := NeverStuck(s);
    }
  }

  lemma ExtendRun(n: nat, steps: seq<Step>, states: seq<State>, step: Step)
    requires IsRun(n, steps, states) && Enabled(states[|steps|], step)
    ensures IsRun(n, steps + [step], states + [Apply(states[|steps|], step)])
  {
    hide Enabled, Apply;
  }

  /** Every run, however it was scheduled and cancelled so far, goes on to one in which the consumer is done. */
  lemma {:induction false} EveryRunCanFinish(n: nat, steps: seq<Step>, states: seq<State>)
    returns (more: seq<Step>, after: seq<State>)
    requires IsRun(n, steps, states)
    ensures IsRun(n, steps + more, states + after) && (states + after)[|steps + more|].finished
    ensures Cancel !in more
    decreases Remaining(states[|steps|])
  {
    hide Enabled, Apply, Remaining, IsSound;
    var s := states[|steps|];
    RunsAreSound(n, steps, states, |steps|);
    if s.finished {
      more, after := [], [];
      assert steps + more == steps && states + after == states;
    } else {
      var step := NeverStuck(s);
      StepsUseUpWork(s, step);
      RemainingIsNatural(s);
      ExtendRun(n, steps, states, step);
      var rest, states2 := EveryRunCanFinish(n, steps + [step], states + [Apply(s, step)]);
      more, after := [step] + rest, [Apply(s, step)] + states2;
      assert steps + more == steps + [step] + rest && states + after == states + [Apply(s, step)] + states2;
    }
  }

  /** A run that cannot be extended, but by a cancellation, ends with the consumer done and one result from every
      provider; it has at most eight steps a provider and five. So every run that keeps taking steps finishes. */
  lemma MaximalRunsFinish(n: nat, steps: seq<Step>, states: seq<State>)
    requires IsRun(n, steps, states) && IsAtRest(states[|steps|])
    ensures states[|steps|].finished && |states[|steps|].received| == n && |steps| <= 8 * n + 5
    ensures forall i, j :: 0 <= i < j < n ==>
              states[|steps|].received[i].provider != states[|steps|].received[j].provider
  {
    hide Enabled, Apply, Remaining, IsSound;
    RunsAreSound(n, steps, states, |steps|);
    RestsExactly(states[|steps|]);
    EveryProviderReports(n, steps, states, |steps|);
    RunsAreBounded(n, steps, states, |steps|);
    RemainingIsNatural(states[|steps|]);
  }

  lemma RemainingIsNatural(s: State)
    ensures Remaining(s) >= 0
  {
  }

  /** The step decides what its provider reports. */
  predicate Decides(step: Step, i: int, outcome: Outcome) {
    || step == FinishScan(i, outcome)
    || (outcome == ContextError && (step == AbandonGate(i) || step == AbandonSemaphore(i)))
  }

  /** What a scan ended with, or a context error when it never began, is about to be sent, or was sent. */
  lemma {:induction false} ReportsWhatWasFound(n: nat, steps: seq<Step>, states: seq<State>, k: nat, j: nat, i: int,
                                               outcome: Outcome)
    requires IsRun(n, steps, states) && j < k < |states| && Decides(steps[j], i, outcome)
    ensures IsReporting(states[k], i, outcome)
    decreases k
  {
    hide IsSound;
    RunsAreSound(n, steps, states, k - 1);
    if j < k - 1 {
      ReportsWhatWasFound(n, steps, states, k - 1, j, i, outcome);
      ReportingLasts(states[k - 1], steps[k - 1], i, outcome);
    }
  }

  /** When the consumer is done it holds that report. */
  lemma FinishedRunHasReport(n: nat, steps: seq<Step>, states: seq<State>, k: nat, j: nat, i: int, outcome: Outcome)
    requires IsRun(n, steps, states) && j < k < |states| && Decides(steps[j], i, outcome) && states[k].finished
    ensures Message(i, outcome) in states[k].received
  {
    ReportsWhatWasFound(n, steps, states, k, j, i, outcome);
    EveryProviderReports(n, steps, states, k);
    RunsAreSound(n, steps, states, k);
    hide MessagesAreRight, Total;
  }

  /** The outcome is about to be sent, or sent. */
  ghost predicate IsReporting(s: State, i: int, outcome: Outcome) {
    (exists h :: IsAt(s, i, Sending(outcome, h))) || HasMessage(s, Message(i, outcome))
  }

  ghost predicate HasMessage(s: State, m: Message) {
    m in s.received || m in s.buffer
  }

  lemma ReportingLasts(s: State, step: Step, i: int, outcome: Outcome)
    requires Enabled(s, step) && IsReporting(s, i, outcome) && IsSound(s)
    ensures IsReporting(Apply(s, step), i, outcome)
  {
    hide MessagesAreRight, Total;
    var next := Apply(s, step);
    if h :| IsAt(s, i, Sending(outcome, h)) {
      if step == Send(i) {
        assert Message(i, outcome) in next.buffer;
      } else {
        assert IsAt(next, i, Sending(outcome, h));
      }
    } else if step == Receive && Message(i, outcome) in s.buffer {
      assert s.buffer == [s.buffer[0]] + s.buffer[1..];
    }
  }

  // ----- what the reports come from

  lemma NewReport(s: State, step: Step, i: int, outcome: Outcome)
    requires Enabled(s, step) && IsReporting(Apply(s, step), i, outcome) && !IsReporting(s, i, outcome)
    ensures Decides(step, i, outcome)
  {
    if IsSending(s, i) {
      assert IsAt(s, i, Sending(s.phases[i].outcome, s.phases[i].holding));
    }
  }

  /** Whatever is reported was decided: a scan ended so, or its goroutine gave up. */
  lemma {:induction false} ReportsAreDecided(n: nat, steps: seq<Step>, states: seq<State>, k: nat, i: int,
                                             outcome: Outcome) returns (j: nat)
    requires IsRun(n, steps, states) && k < |states| && IsReporting(states[k], i, outcome)
    ensures j < k && j < |steps| && Decides(steps[j], i, outcome)
    decreases k
  {
    hide Decides;
    if k == 0 {
      assert false;
    } else if IsReporting(states[k - 1], i, outcome) {
      j := ReportsAreDecided(n, steps, states, k - 1, i, outcome);
    } else {
      j := k - 1;
      NewReport(states[k - 1], steps[k - 1], i, outcome);
    }
  }

  /** The step ends the scans' context: the caller does, or a scan that ended with a context error. */
  predicate IsCancelling(step: Step) {
    step == Cancel || (step.FinishScan? && step.outcome == ContextError)
  }

  /** The context has ended exactly when some step before ended it. */
  lemma {:induction false} CancelledExactly(n: nat, steps: seq<Step>, states: seq<State>, k: nat)
    requires IsRun(n, steps, states) && k < |states|
    ensures states[k].cancelled <==> exists j :: 0 <= j < k && IsCancelling(steps[j])
  {
    hide Enabled, Apply, IsCancelling;
    if k > 0 {
      CancelledExactly(n, steps, states, k - 1);
      CancelStep(states[k - 1], steps[k - 1]);
    }
  }

  lemma CancelStep(s: State, step: Step)
    requires Enabled(s, step)
    ensures Apply(s, step).cancelled <==> s.cancelled || IsCancelling(step)
  {
  }

  /** A goroutine gives up, at the gate or at the semaphore, only after the context has ended. */
  lemma GivesUpWhenCancelled(n: nat, steps: seq<Step>, states: seq<State>, j: nat, i: int)
    requires IsRun(n, steps, states) && j < |steps| && (steps[j] == AbandonGate(i) || steps[j] == AbandonSemaphore(i))
    ensures exists l :: 0 <= l < j && IsCancelling(steps[l])
  {
    CancelledExactly(n, steps, states, j);
  }

  /** Who is past the gate found it open. */
  ghost predicate IsBehindGate(s: State) {
    forall i :: IsAt(s, i, AtSemaphore) || IsAt(s, i, Scanning) ==> s.gateOpen
  }

  lemma StepKeepsGate(s: State, step: Step)
    requires Enabled(s, step) && IsBehindGate(s)
    ensures IsBehindGate(Apply(s, step))
  {
    var next := Apply(s, step);
    forall i | IsAt(next, i, AtSemaphore) || IsAt(next, i, Scanning) ensures next.gateOpen {
      assert IsAt(s, i, AtSemaphore) || IsAt(s, i, Scanning) || step == PassGate(i);
    }
  }

  lemma {:induction false} RunsStayBehindGate(n: nat, steps: seq<Step>, states: seq<State>, k: nat)
    requires IsRun(n, steps, states) && k < |states|
    ensures IsBehindGate(states[k])
  {
    hide Enabled, Apply;
    if k > 0 {
      RunsStayBehindGate(n, steps, states, k - 1);
      hide IsBehindGate;
      StepKeepsGate(states[k - 1], steps[k - 1]);
    }
  }

  /** No scan begins before every provider's goroutine has been started. */
  lemma ScansBeginTogether(n: nat, steps: seq<Step>, states: seq<State>, k: nat, i: int)
    requires IsRun(n, steps, states) && k < |states| && IsAt(states[k], i, Scanning)
    ensures states[k].gateOpen && |states[k].phases| == n
    ensures forall p :: 0 <= p < |states[k].phases| ==> states[k].phases[p] != Unborn
  {
    RunsStayBehindGate(n, steps, states, k);
    RunsAreSound(n, steps, states, k);
    hide MessagesAreRight, Total, Enabled, Apply;
  }

  /** In a finished run whose context never ended, every provider was scanned, and the consumer holds what its scan
      ended with. */
  lemma UndisturbedRunsScanAll(n: nat, steps: seq<Step>, states: seq<State>, k: nat, r: nat)
    returns (j: nat)
    requires IsRun(n, steps, states) && k < |states| && states[k].finished && r < |states[k].received|
    requires forall l :: 0 <= l < k ==> !IsCancelling(steps[l])
    ensures j < k && var m := states[k].received[r];
                     steps[j] == FinishScan(m.provider, m.outcome) && m.outcome != ContextError
  {
    var m := states[k].received[r];
    assert IsReporting(states[k], m.provider, m.outcome);
    j := ReportsAreDecided(n, steps, states, k, m.provider, m.outcome);
    if steps[j] == AbandonGate(m.provider) || steps[j] == AbandonSemaphore(m.provider) {
      GivesUpWhenCancelled(n, steps, states, j, m.provider);
      assert false;
    }
  }
}
