// MonitorPod and ApplyWithWriters: three goroutines and two unbuffered channels.
module Pod {
  import opened Wrappers

  datatype Phase = Pending | Running | Succeeded | Failed | Unknown | OtherPhase

  // What the select of MonitorPod can receive.
  datatype Stimulus =
    | PodEvent(deleted: bool, phase: Phase, pod: string)
    | OtherObject
    | StreamClosed
    | Timeout
    | Cancelled(error: string)

  // The first stimulus of this kind ends the monitoring.
  predicate Terminal(x: Stimulus) {
    match x
    case PodEvent(deleted, phase, _) => deleted || phase.Succeeded? || phase.Failed?
    case OtherObject => false
    case _ => true
  }

  predicate SaysRunning(x: Stimulus) { x.PodEvent? && !x.deleted && x.phase.Running? }

  // What is sent to errChan: nil, an error, or nothing at all.
  datatype Outcome = Result(err: Option<string>) | Silence

  function OutcomeOf(x: Stimulus): Outcome
    requires Terminal(x)
  {
    match x
    case PodEvent(deleted, phase, pod) =>
      if deleted then Result(Some("pod " + pod + " was deleted"))
      else if phase.Succeeded? then Result(None)
      else Result(Some("pod " + pod + " terminated (failed)"))
    case Timeout => Result(Some("timeout waiting for pod to run to completion"))
    case Cancelled(e) => Result(Some("stop wating for pod: " + e))
    case _ => Silence
  }

  // x[k] is the first terminal stimulus.
  predicate Decides(script: seq<Stimulus>, k: nat) {
    k < |script| && Terminal(script[k]) && forall i :: 0 <= i < k ==> !Terminal(script[i])
  }

  predicate RunningBefore(script: seq<Stimulus>, k: nat) {
    k <= |script| && exists i :: 0 <= i < k && SaysRunning(script[i])
  }

  datatype Signal = ReadySignal | ErrSignal(err: Option<string>)

  // All that is ever sent when the stimulus at k is the first terminal one.
  function Sends(script: seq<Stimulus>, k: nat): seq<Signal>
    requires Decides(script, k)
  {
    (if RunningBefore(script, k) then [ReadySignal] else []) +
    match OutcomeOf(script[k]) case Result(e) => [ErrSignal(e)] case Silence => []
  }

  // The event loop on its own, with every send received. script holds what the select chooses, in order.
  method MonitorPod(script: seq<Stimulus>, ghost k: nat) returns (sent: seq<Signal>)
    requires Decides(script, k)
    ensures sent == Sends(script, k)
  {
    sent := [];
    var running, i := false, 0;
    while true
      invariant 0 <= i <= k && running == RunningBefore(script, i)
      invariant sent == if running then [ReadySignal] else []
      decreases k - i
    {
      match script[i] {
        case StreamClosed => return;
        case PodEvent(deleted, phase, pod) =>
          if deleted { return sent + [ErrSignal(Some("pod " + pod + " was deleted"))]; }
          match phase {
            case Running =>
              if !running {
                running := true;
                sent := sent + [ReadySignal];
              }
            case Succeeded => return sent + [ErrSignal(None)];
            case Failed => return sent + [ErrSignal(Some("pod " + pod + " terminated (failed)"))];
            case _ =>
          }
        case OtherObject =>
        case Timeout => return sent + [ErrSignal(Some("timeout waiting for pod to run to completion"))];
        case Cancelled(e) => return sent + [ErrSignal(Some("stop wating for pod: " + e))];
      }
      assert SaysRunning(script[i]) ==> running;
      i := i + 1;
    }
  }

  // ---- The three goroutines

  datatype Monitor = Select | SendReady | SendErr(err: Option<string>) | CloseReady | CloseErr | Exited

  datatype Logger = AwaitReady | Logging | LoggerDone

  datatype Main = Creating | AwaitErr | Returned(err: Option<string>)

  // script holds the stimuli to come; createErr is the answer to the creation of the pod.
  datatype Config = Config(script: seq<Stimulus>, createErr: Option<string>)

  // sent is a history of the sends completed.
  datatype State = State(pos: nat, monitor: Monitor, running: bool, readyClosed: bool, errClosed: bool,
                         logger: Logger, main: Main, sent: seq<Signal>)

  datatype Step = MonitorStep | HandOverReady | HandOverErr | LoggerReleased | LoggerEnds | Create | MainReleased

  const START := State(0, Select, false, false, false, AwaitReady, Creating, [])

  predicate Enabled(c: Config, s: State, a: Step) {
    match a
    case MonitorStep =>
      (s.monitor.Select? && (s.pos < |c.script| || s.main.Returned?)) || s.monitor.CloseReady? || s.monitor.CloseErr?
    case HandOverReady => s.monitor.SendReady? && s.logger.AwaitReady?
    case HandOverErr => s.monitor.SendErr? && s.main.AwaitErr?
    case LoggerReleased => s.logger.AwaitReady? && s.readyClosed
    case LoggerEnds => s.logger.Logging?
    case Create => s.main.Creating?
    case MainReleased => s.main.AwaitErr? && s.errClosed
  }

  // Where the monitor goes from its select.
  function Chosen(x: Stimulus, running: bool): (Monitor, bool) {
    if Terminal(x) then
      match OutcomeOf(x) {
        case Result(e) => (SendErr(e), running)
        case Silence => (CloseReady, running)
      }
    else if SaysRunning(x) && !running then (SendReady, true)
    else (Select, running)
  }

  function Apply(c: Config, s: State, a: Step): State
    requires Enabled(c, s, a)
  {
    match a
    case MonitorStep =>
      (match s.monitor
       case Select =>
         if s.pos < |c.script| then
           var (m, running) := Chosen(c.script[s.pos], s.running);
           s.(pos := s.pos + 1, monitor := m, running := running)
         else s.(monitor := CloseReady) // the caller has stopped the watcher, which closes the stream
       case CloseReady => s.(monitor := CloseErr, readyClosed := true)
       case _ => s.(monitor := Exited, errClosed := true))
    case HandOverReady => s.(monitor := Select, logger := Logging, sent := s.sent + [ReadySignal])
    case HandOverErr =>
      s.(monitor := CloseReady, main := Returned(s.monitor.err), sent := s.sent + [ErrSignal(s.monitor.err)])
    case LoggerReleased => s.(logger := Logging)
    case LoggerEnds => s.(logger := LoggerDone)
    case Create => s.(main := if c.createErr.None? then AwaitErr else Returned(c.createErr))
    case MainReleased => s.(main := Returned(None))
  }

  ghost predicate Runs(c: Config, s: State, steps: seq<Step>, s': State)
    decreases |steps|
  {
    if steps == [] then s == s' else Enabled(c, s, steps[0]) && Runs(c, Apply(c, s, steps[0]), steps[1..], s')
  }

  ghost predicate Reachable(c: Config, s: State) { exists steps :: Runs(c, START, steps, s) }

  // ---- The invariant

  // Where the script stands: before its first terminal stimulus, just behind it, or cut off by the stopped watcher.
  predicate Cut(c: Config, s: State) { s.pos == |c.script| && NoTerminal(c.script, s.pos) && c.createErr.Some? }

  predicate NoTerminal(script: seq<Stimulus>, k: nat) {
    k <= |script| && forall i :: 0 <= i < k ==> !Terminal(script[i])
  }

  predicate Decided(c: Config, s: State) { s.pos > 0 && Decides(c.script, s.pos - 1) }

  predicate Ready(s: State) { s.running && !s.monitor.SendReady? }

  function ReadyPart(s: State): seq<Signal> { if Ready(s) then [ReadySignal] else [] }

  predicate Inv(c: Config, s: State) {
    && s.pos <= |c.script| && s.running == RunningBefore(c.script, s.pos)
    && (s.monitor.Select? || s.monitor.SendReady? ==> NoTerminal(c.script, s.pos) && s.sent == ReadyPart(s))
    && (s.monitor.SendReady? ==> s.running && s.logger.AwaitReady?)
    && (s.monitor.SendErr? ==>
          Decided(c, s) && OutcomeOf(c.script[s.pos-1]) == Result(s.monitor.err) && s.sent == ReadyPart(s))
    && (s.monitor.CloseReady? || s.monitor.CloseErr? || s.monitor.Exited? ==>
          (Decided(c, s) && s.sent == Sends(c.script, s.pos - 1)) || (Cut(c, s) && s.sent == ReadyPart(s)))
    && (s.readyClosed <==> s.monitor.CloseErr? || s.monitor.Exited?)
    && (s.errClosed <==> s.monitor.Exited?)
    && (s.logger.AwaitReady? ==> !Ready(s)) && (!s.logger.AwaitReady? ==> Ready(s) || s.readyClosed)
    && MainInv(c, s)
  }

  predicate NotClosing(m: Monitor) { m.Select? || m.SendReady? || m.SendErr? }

  predicate MainInv(c: Config, s: State) {
    match s.main
    case Creating => NotClosing(s.monitor) || Quiet(c, s)
    case AwaitErr => c.createErr.None? && (NotClosing(s.monitor) || Quiet(c, s))
    case Returned(e) =>
      if c.createErr.Some? then e == c.createErr && (NotClosing(s.monitor) || Cut(c, s) || Quiet(c, s))
      else !NotClosing(s.monitor) && Decided(c, s) && e == ResultOf(OutcomeOf(c.script[s.pos-1]))
  }

  // The stream was closed first.
  predicate Quiet(c: Config, s: State) { Decided(c, s) && OutcomeOf(c.script[s.pos-1]).Silence? }

  // What ApplyWithWriters makes of it: receiving from the closed channel yields nil.
  function ResultOf(o: Outcome): Option<string> { match o case Result(e) => e case Silence => None }

  lemma StepInv(c: Config, s: State, a: Step)
    requires Inv(c, s) && Enabled(c, s, a)
    ensures Inv(c, Apply(c, s, a))
  {
    if a.MonitorStep? && s.monitor.Select? && s.pos < |c.script| { SelectInv(c, s); }
  }

  lemma SelectInv(c: Config, s: State)
    requires Inv(c, s) && s.monitor.Select? && s.pos < |c.script|
    ensures Inv(c, Apply(c, s, MonitorStep))
  {
    var x := c.script[s.pos];
    assert RunningBefore(c.script, s.pos + 1) <==> RunningBefore(c.script, s.pos) || SaysRunning(x);
  }

  lemma {:induction false} RunInv(c: Config, s: State, steps: seq<Step>, s': State)
    requires Inv(c, s) && Runs(c, s, steps, s')
    ensures Inv(c, s')
    decreases |steps|
  {
    if steps != [] {
      StepInv(c, s, steps[0]);
      RunInv(c, Apply(c, s, steps[0]), steps[1..], s');
    }
  }

  lemma ReachableInv(c: Config, s: State)
    requires Reachable(c, s)
    ensures Inv(c, s)
  {
    var steps :| Runs(c, START, steps, s);
    RunInv(c, START, steps, s);
  }

  lemma DecidesUnique(script: seq<Stimulus>, k: nat, j: nat)
    requires Decides(script, k) && Decides(script, j)
    ensures k == j
  {}

  // ---- What is sent, and what the caller gets

  // At every moment the sends completed are a beginning of what the first terminal stimulus prescribes:
  // at most one ready signal, before the result; at most one result; that of the first terminal stimulus.
  lemma SendsInOrder(c: Config, s: State, k: nat)
    requires Reachable(c, s) && Decides(c.script, k)
    ensures s.sent <= Sends(c.script, k)
  {
    ReachableInv(c, s);
    if Decided(c, s) {
      DecidesUnique(c.script, k, s.pos - 1);
      assert !SaysRunning(c.script[k]);
      assert RunningBefore(c.script, s.pos) ==> RunningBefore(c.script, k);
    } else {
      assert NoTerminal(c.script, s.pos);
      assert s.pos <= k;
      assert RunningBefore(c.script, s.pos) ==> RunningBefore(c.script, k);
    }
  }

  // A caller whose pod was created returns the outcome of the first terminal stimulus; nil when it was the end of the
  // stream.
  lemma CallerResult(c: Config, s: State, k: nat)
    requires Reachable(c, s) && c.createErr.None? && s.main.Returned? && Decides(c.script, k)
    ensures s.main.err == ResultOf(OutcomeOf(c.script[k]))
  {
    ReachableInv(c, s);
    DecidesUnique(c.script, k, s.pos - 1);
  }

  // Neither the deletion of the pod, nor a phase in which it has ended, nor the end of the watching.
  predicate GoesOn(x: Stimulus) {
    x.OtherObject? || (x.PodEvent? && !x.deleted && x.phase != Succeeded && x.phase != Failed)
  }

  lemma GoesOnIff(x: Stimulus)
    ensures GoesOn(x) <==> !Terminal(x)
  {}

  // The same by what the pod did: success only if it succeeded; its deletion counts before its phase.
  lemma ResultByPhase(c: Config, s: State, k: nat)
    requires Reachable(c, s) && c.createErr.None? && s.main.Returned?
    requires k < |c.script| && !GoesOn(c.script[k]) && forall i :: 0 <= i < k ==> GoesOn(c.script[i])
    ensures var x := c.script[k];
      && (x.PodEvent? && x.deleted ==> s.main.err == Some("pod " + x.pod + " was deleted"))
      && (x.PodEvent? && !x.deleted && x.phase == Failed ==>
            s.main.err == Some("pod " + x.pod + " terminated (failed)"))
      && (x.PodEvent? && !x.deleted && x.phase == Succeeded ==> s.main.err == None)
      && (x.Timeout? ==> s.main.err == Some("timeout waiting for pod to run to completion"))
      && (x.Cancelled? ==> s.main.err == Some("stop wating for pod: " + x.error))
      && (x.StreamClosed? ==> s.main.err == None)
  {
    forall i | 0 <= i <= k ensures GoesOn(c.script[i]) <==> !Terminal(c.script[i]) { GoesOnIff(c.script[i]); }
    CallerResult(c, s, k);
  }

  // When the monitor has ended, the ready signal was sent iff the pod was seen running before, and sent first.
  lemma ReadyByPhase(c: Config, s: State, k: nat)
    requires Reachable(c, s) && c.createErr.None? && s.monitor.Exited?
    requires k < |c.script| && !GoesOn(c.script[k]) && forall i :: 0 <= i < k ==> GoesOn(c.script[i])
    ensures ReadySignal in s.sent <==>
      exists i :: 0 <= i < k && c.script[i].PodEvent? && !c.script[i].deleted && c.script[i].phase == Running
    ensures forall i, j :: 0 <= i < j < |s.sent| ==> s.sent[i] == ReadySignal && s.sent[j] != ReadySignal
  {
    ReachableInv(c, s);
    forall i | 0 <= i <= k ensures GoesOn(c.script[i]) <==> !Terminal(c.script[i]) { GoesOnIff(c.script[i]); }
    DecidesUnique(c.script, k, s.pos - 1);
    assert s.sent == Sends(c.script, k);
    if RunningBefore(c.script, k) { assert s.sent[0] == ReadySignal; }
    assert forall i :: 0 <= i < k ==> (SaysRunning(c.script[i]) <==>
      c.script[i].PodEvent? && !c.script[i].deleted && c.script[i].phase == Running);
  }

  // ---- Everybody is released

  predicate AllReleased(s: State) { s.monitor.Exited? && s.logger.LoggerDone? && s.main.Returned? }

  predicate Stuck(c: Config, s: State) { forall a :: !Enabled(c, s, a) }

  function MonitorWeight(m: Monitor): nat {
    match m
    case Select => 4
    case SendReady => 5
    case SendErr(_) => 3
    case CloseReady => 2
    case CloseErr => 1
    case Exited => 0
  }

  function Weight(c: Config, s: State): nat {
    (if s.pos < |c.script| then 2 * (|c.script| - s.pos) else 0) + MonitorWeight(s.monitor) +
    (match s.logger case AwaitReady => 2 case Logging => 1 case LoggerDone => 0) +
    (match s.main case Creating => 2 case AwaitErr => 1 case Returned(_) => 0)
  }

  lemma WeightDrops(c: Config, s: State, a: Step)
    requires Enabled(c, s, a)
    ensures Weight(c, Apply(c, s, a)) < Weight(c, s)
  {}

  lemma {:induction false} RunsAreShort(c: Config, s: State, steps: seq<Step>, s': State)
    requires Runs(c, s, steps, s')
    ensures |steps| + Weight(c, s') <= Weight(c, s)
    decreases |steps|
  {
    if steps != [] {
      WeightDrops(c, s, steps[0]);
      RunsAreShort(c, Apply(c, s, steps[0]), steps[1..], s');
    }
  }

  // The pod was created and some stimulus ends the monitoring, or it was not and no message is due.
  ghost predicate Releases(c: Config) {
    if c.createErr.None? then exists k: nat :: Decides(c.script, k)
    else forall k: nat :: Decides(c.script, k) ==> OutcomeOf(c.script[k]).Silence?
  }

  // Where every run ends. The log goroutine, the monitor and the caller are all released exactly under Releases:
  // after a failed creation nobody receives from errChan, so a monitor with a message to send stays there, and with
  // it the log goroutine, for which readyChan is then never closed.
  lemma ReleasedIff(c: Config, s: State)
    requires Reachable(c, s) && Stuck(c, s)
    ensures AllReleased(s) <==> Releases(c)
  {
    ReachableInv(c, s);
    NoStepLeft(c, s);
    if Decided(c, s) {
      forall k: nat | Decides(c.script, k) ensures k == s.pos - 1 { DecidesUnique(c.script, k, s.pos - 1); }
      assert Decides(c.script, s.pos - 1);
    } else {
      assert NoTerminal(c.script, s.pos);
      assert s.pos == |c.script|;
      assert forall k: nat :: !Decides(c.script, k);
    }
  }

  lemma NoStepLeft(c: Config, s: State)
    requires Inv(c, s) && Stuck(c, s)
    ensures || AllReleased(s)
            || (s.main.AwaitErr? && s.monitor.Select? && s.pos == |c.script|)
            || (c.createErr.Some? && s.monitor.SendErr?)
  {
    assert !Enabled(c, s, MonitorStep) && !Enabled(c, s, HandOverReady) && !Enabled(c, s, HandOverErr);
    assert !Enabled(c, s, LoggerReleased) && !Enabled(c, s, LoggerEnds) && !Enabled(c, s, Create);
    assert !Enabled(c, s, MainReleased);
  }
}
