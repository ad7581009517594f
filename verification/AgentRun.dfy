/** The run handle: one runner task, one result future, one event channel. */
module AgentRun {
  import R = RunEvents
  import opened Optional

  datatype Error = CancelledError | DeliveryError(code: string) | OtherError(name: string)

  datatype Status = Completed | WaitingForUser | CancelledStatus | Failed
  datatype RunResult = RunResult(status: Status, error: Option<Error>)

  /** What the collector looks at in an event: only a terminal event produces a result. */
  datatype Event = Progress | Finished(result: RunResult)

  /** Where the private runner coroutine is. */
  datatype Runner =
    | NotStarted
    | Created                              // scheduled, has not run its first instruction
    | Streaming                            // iterating the source, publishing and collecting
    | ClosingSource(raised: Option<Error>) // awaiting the source's aclose
    | Ended

  datatype Future = Absent | Pending | Settled(result: RunResult)

  datatype Handle = Handle(
    runner: Runner,
    collected: Option<RunResult>,
    future: Future,
    resultOnly: bool,
    eventsConsumed: bool,
    runnerError: Option<Error>,
    deliveryError: Option<Error>,
    channel: R.Channel)

  const MISSING_TERMINAL := RunResult(Failed, Some(OtherError("MissingTerminalEvent")))

  function Initial(options: R.Options): Handle {
    Handle(NotStarted, None, Absent, false, false, None, None, R.Initial(options))
  }

  // ---- Transitions ----

  function Start(h: Handle): Handle {
    if h.runner.NotStarted? then h.(runner := Created, future := Pending, collected := None) else h
  }

  function CloseChannel(c: R.Channel): R.Channel {
    R.Wake(c.(closed := true))
  }

  /** The result chosen when the runner leaves with `raised`, given what the events said. */
  function Conclude(collected: Option<RunResult>, raised: Option<Error>): RunResult {
    if raised.Some? && (collected.None? || !raised.value.CancelledError?) then
      RunResult(if raised.value.CancelledError? then CancelledStatus else Failed, raised)
    else if collected.Some? then collected.value
    else MISSING_TERMINAL
  }

  function Settle(h: Handle, result: RunResult): Handle {
    h.(collected := Some(result),
       future := if h.future.Pending? then Settled(result) else h.future,
       channel := CloseChannel(h.channel))
  }

  /** The source finished: a delivery failure noted meanwhile is raised now. */
  function SourceEnds(h: Handle): Handle
    requires h.runner.Streaming?
  {
    h.(runner := ClosingSource(h.deliveryError))
  }

  /** The except and finally blocks, entered once the source is closed; they contain no suspension point. */
  function RunnerExits(h: Handle, closeRaised: Option<Error>): Handle
    requires h.runner.ClosingSource?
  {
    var raised := if closeRaised.Some? then closeRaised else h.runner.raised;
    var final := if raised.Some? && h.deliveryError.Some? then h.deliveryError else raised;
    var h' := h.(runner := Ended,
                 runnerError := if final.Some? && !h.resultOnly then final else h.runnerError);
    Settle(h', Conclude(h.collected, final))
  }

  /** `aclose` after the runner task is done: a task cancelled before its first step settles here. */
  function CloseAfterRunner(h: Handle): Handle
    requires h.runner.Ended?
  {
    if h.future.Pending? then Settle(h, RunResult(CancelledStatus, None)) else h
  }

  function ClaimEvents(h: Handle): (Handle, bool) {
    var s := Start(h);
    if s.resultOnly || s.eventsConsumed then (s, false) else (s.(eventsConsumed := true), true)
  }

  function AskResult(h: Handle, consumeEvents: bool): Handle {
    var s := Start(h);
    if consumeEvents && !s.eventsConsumed && !s.resultOnly then s.(resultOnly := true, runnerError := None) else s
  }

  datatype Action =
    | StartRun
    | FirstStep
    | Collect(event: Event)
    | SourceDone
    | SourceRaised(error: Error)
    | Exit(closeRaised: Option<Error>)
    | CancelBeforeFirstStep
    | HandleClosed
    | BrokerFailed(code: string)
    | ConsumeEvents
    | ReadResult(consumeEvents: bool)
    | ConsumerLeaves
    | OnChannel(action: R.Action)  // publishing by the runner or a broker, consuming, interrupting

  predicate Enabled(h: Handle, a: Action) {
    match a
    case FirstStep => h.runner.Created?
    case Collect(_) => h.runner.Streaming?
    case SourceDone => h.runner.Streaming?
    case SourceRaised(_) => h.runner.Streaming?
    case Exit(_) => h.runner.ClosingSource?
    case CancelBeforeFirstStep => h.runner.Created?
    case HandleClosed => h.runner.Ended?
    case OnChannel(action) => !action.Close? && R.Enabled(h.channel, action)
    case _ => true
  }

  function Step(h: Handle, a: Action): Handle
    requires Enabled(h, a)
  {
    match a
    case StartRun => Start(h)
    case FirstStep => h.(runner := Streaming)
    case Collect(event) => if event.Finished? then h.(collected := Some(event.result)) else h
    case SourceDone => SourceEnds(h)
    case SourceRaised(error) => h.(runner := ClosingSource(Some(error)))
    case Exit(closeRaised) => RunnerExits(h, closeRaised)
    case CancelBeforeFirstStep => h.(runner := Ended)
    case HandleClosed => CloseAfterRunner(h)
    case BrokerFailed(code) => h.(deliveryError := Some(DeliveryError(code)))
    case ConsumeEvents => ClaimEvents(h).0
    case ReadResult(consumeEvents) => AskResult(h, consumeEvents)
    case ConsumerLeaves => h.(runnerError := None)
    case OnChannel(action) => h.(channel := R.Step(h.channel, action).0)
  }

  ghost predicate Runs(h: Handle, actions: seq<Action>, h': Handle)
    decreases |actions|
  {
    if actions == [] then h == h'
    else Enabled(h, actions[0]) && Runs(Step(h, actions[0]), actions[1..], h')
  }

  ghost predicate Reachable(h: Handle) {
    exists options: R.Options, actions :: options.Valid() && Runs(Initial(options), actions, h)
  }

  // ---- The class ----

  class AgentRunHandle {
    var runner: Runner
    var collected: Option<RunResult>
    var future: Future
    var resultOnly: bool
    var eventsConsumed: bool
    var runnerError: Option<Error>
    var deliveryError: Option<Error>
    const channel: R.RunEventChannel

    ghost function View(): Handle
      reads this, channel
    {
      Handle(runner, collected, future, resultOnly, eventsConsumed, runnerError, deliveryError, channel.View())
    }

    constructor (options: R.Options)
      ensures View() == Initial(options) && fresh(channel)
    {
      runner, collected, future := NotStarted, None, Absent;
      resultOnly, eventsConsumed, runnerError, deliveryError := false, false, None, None;
      channel := new R.RunEventChannel(options);
    }

    method EnsureStarted()
      modifies this
      ensures View() == Start(old(View())) && channel.View() == old(channel.View())
    {
      if runner.NotStarted? {
        collected, future, runner := None, Pending, Created;
      }
    }

    method SettleWith(result: RunResult)
      modifies this`collected, this`future, channel
      ensures View() == Settle(old(View()), result)
    {
      collected := Some(result);
      if future.Pending? {
        future := Settled(result);
      }
      channel.CloseChannel();
    }

    method FinishRunner(closeRaised: Option<Error>)
      requires runner.ClosingSource?
      modifies this, channel
      ensures View() == RunnerExits(old(View()), closeRaised)
    {
      var raised, result := if closeRaised.Some? then closeRaised else runner.raised, collected;
      runner := Ended;
      if raised.Some? {
        raised := if deliveryError.Some? then deliveryError else raised;
        if !resultOnly {
          runnerError := raised;
        }
        if result.None? || !raised.value.CancelledError? {
          result := Some(RunResult(if raised.value.CancelledError? then CancelledStatus else Failed, raised));
        }
      }
      if result.None? {
        result := Some(MISSING_TERMINAL);
      }
      SettleWith(result.value);
    }

    method CloseHandle()
      requires runner.Ended?
      modifies this, channel
      ensures View() == CloseAfterRunner(old(View()))
    {
      if future.Pending? {
        SettleWith(RunResult(CancelledStatus, None));
      }
    }

    method Events() returns (granted: bool)
      modifies this
      ensures (View(), granted) == ClaimEvents(old(View()))
    {
      EnsureStarted();
      if resultOnly || eventsConsumed {
        return false;
      }
      eventsConsumed := true;
      granted := true;
    }

    method Result(consumeEvents: bool)
      modifies this
      ensures View() == AskResult(old(View()), consumeEvents)
    {
      EnsureStarted();
      if consumeEvents && !eventsConsumed && !resultOnly {
        resultOnly := true;
        runnerError := None;
      }
    }
  }

  // ---- Invariant of every interleaving ----

  ghost predicate Inv(h: Handle) {
    && R.Inv(h.channel)
    && (h.future.Absent? <==> h.runner.NotStarted?)
    && (h.future.Settled? <==> h.channel.closed)
    && (h.future.Settled? ==> h.runner.Ended? && h.collected == Some(h.future.result))
    && (h.runner.Created? ==> h.collected.None?)
    && (h.runner.Ended? && h.future.Pending? ==> h.collected.None?)
    && !(h.resultOnly && h.eventsConsumed)
  }

  lemma StepKeepsInv(h: Handle, a: Action)
    requires Inv(h) && Enabled(h, a)
    ensures Inv(Step(h, a))
  {
    match a
    case OnChannel(action) => R.StepKeepsInv(h.channel, action);
    case Exit(closeRaised) => R.StepKeepsInv(h.channel, R.Close);
    case HandleClosed => R.StepKeepsInv(h.channel, R.Close);
    case _ =>
  }

  lemma {:induction false} RunsKeepInv(h: Handle, actions: seq<Action>, h': Handle)
    requires Inv(h) && Runs(h, actions, h')
    ensures Inv(h')
    decreases |actions|
  {
    if actions != [] {
      StepKeepsInv(h, actions[0]);
      RunsKeepInv(Step(h, actions[0]), actions[1..], h');
    }
  }

  lemma ReachableInv(h: Handle)
    requires Reachable(h)
    ensures Inv(h)
  {
    var options: R.Options, actions :| options.Valid() && Runs(Initial(options), actions, h);
    RunsKeepInv(Initial(options), actions, h);
  }

  // ---- Consequences ----

  /** The result is settled once: nothing that can happen later changes it. */
  lemma {:induction false} SettledOnce(h: Handle, actions: seq<Action>, h': Handle)
    requires Inv(h) && h.future.Settled? && Runs(h, actions, h')
    ensures h'.future == h.future && h'.collected == h.collected
    decreases |actions|
  {
    if actions != [] {
      StepKeepsInv(h, actions[0]);
      SettledOnce(Step(h, actions[0]), actions[1..], h');
    }
  }

  /** When the consumer gets the end marker, every accepted event was delivered and the result is already set. */
  lemma EndHasResult(h: Handle)
    requires Reachable(h) && R.Enabled(h.channel, R.Get) && R.Step(h.channel, R.Get).1 == R.End
    ensures h.future.Settled? && h.collected == Some(h.future.result)
    ensures h.channel.delivered == R.Numbered(h.channel.accepted)
  {
    ReachableInv(h);
  }

  /** Events and private draining exclude each other, so the channel never has two consumers. */
  lemma OneConsumer(h: Handle)
    requires Reachable(h)
    ensures !(h.resultOnly && h.eventsConsumed)
    ensures ClaimEvents(h).1 ==> !h.eventsConsumed && !h.resultOnly && ClaimEvents(ClaimEvents(h).0).1 == false
  {
    ReachableInv(h);
  }

  lemma {:induction false} UnsettledEndHistory(h: Handle, actions: seq<Action>, h': Handle)
    requires Inv(h) && Runs(h, actions, h') && h'.runner.Ended? && h'.future.Pending?
    ensures !h.runner.Streaming? && !h.runner.ClosingSource?
    ensures FirstStep !in actions
    ensures !h.runner.Ended? ==> CancelBeforeFirstStep in actions
    decreases |actions|
  {
    if actions != [] {
      var next := Step(h, actions[0]);
      StepKeepsInv(h, actions[0]);
      if next.future.Settled? {
        SettledOnce(next, actions[1..], h');
      }
      UnsettledEndHistory(next, actions[1..], h');
      assert actions == [actions[0]] + actions[1..];
    }
  }

  /** A run ends without a result only when its task was cancelled before its first step; closing the handle repairs it. */
  lemma UnsettledEndIsRepaired(options: R.Options, actions: seq<Action>, h: Handle)
    requires options.Valid() && Runs(Initial(options), actions, h) && h.runner.Ended? && !h.future.Settled?
    ensures FirstStep !in actions && CancelBeforeFirstStep in actions
    ensures CloseAfterRunner(h).future == Settled(RunResult(CancelledStatus, None)) && CloseAfterRunner(h).channel.closed
  {
    RunsKeepInv(Initial(options), actions, h);
    UnsettledEndHistory(Initial(options), actions, h);
  }

  ghost predicate DeliveryFailed(h: Handle) {
    h.deliveryError.Some? && h.deliveryError.value.DeliveryError?
  }

  /** A source that was still streaming when a delivery failed cannot be left without an error raised. */
  lemma {:induction false} DeliveryFailurePersists(h: Handle, actions: seq<Action>, h': Handle)
    requires Runs(h, actions, h') && DeliveryFailed(h)
    requires h.runner.Streaming? || (h.runner.ClosingSource? && h.runner.raised.Some?) || h.runner.Ended?
    ensures DeliveryFailed(h')
    ensures h'.runner.ClosingSource? ==> h'.runner.raised.Some?
    ensures h'.runner.Streaming? || h'.runner.ClosingSource? || h'.runner.Ended?
    decreases |actions|
  {
    if actions != [] {
      DeliveryFailurePersists(Step(h, actions[0]), actions[1..], h');
    }
  }

  /** Once a broker's delivery failed while the source was still streaming, the run ends as failed with a delivery
      error, whatever happens until then: the source may report success, raise, or be cancelled. */
  lemma DeliveryFailureWins(h: Handle, actions: seq<Action>, h': Handle, closeRaised: Option<Error>)
    requires Reachable(h) && DeliveryFailed(h) && h.runner.Streaming?
    requires Runs(h, actions, h') && h'.runner.ClosingSource?
    ensures var future := RunnerExits(h', closeRaised).future;
            && future.Settled? && future.result.status == Failed
            && future.result.error.Some? && future.result.error.value.DeliveryError?
  {
    ReachableInv(h);
    RunsKeepInv(h, actions, h');
    DeliveryFailurePersists(h, actions, h');
  }

  /** A delivery failure noted by the time the runner leaves decides the result exactly when leaving raises anything,
      or the collected result happens to be that failure already: after a clean end of the source it comes too late. */
  lemma DeliveryFailureDecidesIff(h: Handle, closeRaised: Option<Error>)
    requires Reachable(h) && h.runner.ClosingSource? && DeliveryFailed(h)
    ensures RunnerExits(h, closeRaised).future == Settled(RunResult(Failed, h.deliveryError))
            <==> closeRaised.Some? || h.runner.raised.Some? || h.collected == Some(RunResult(Failed, h.deliveryError))
  {
    ReachableInv(h);
  }

  /** Cancelling cleanup after a terminal event keeps that event's result; any other failure replaces it. */
  lemma CancellationKeepsTerminalResult(h: Handle, closeRaised: Option<Error>)
    requires Reachable(h) && h.runner.ClosingSource? && h.collected.Some? && h.deliveryError.None?
    ensures var raised := if closeRaised.Some? then closeRaised else h.runner.raised;
            RunnerExits(h, closeRaised).future == Settled(h.collected.value)
            <==> (raised.None? || raised.value.CancelledError? || RunResult(Failed, raised) == h.collected.value)
  {
    ReachableInv(h);
  }

  // ---- The result in terms of what happened ----

  /** The result of the last terminal event among the actions. */
  function LastFinished(actions: seq<Action>): Option<RunResult> {
    if actions == [] then None
    else
      var a := actions[|actions| - 1];
      if a.Collect? && a.event.Finished? then Some(a.event.result) else LastFinished(actions[..|actions| - 1])
  }

  /** The delivery failure that was noted last. */
  function NotedFailure(actions: seq<Action>): Option<Error> {
    if actions == [] then None
    else
      var a := actions[|actions| - 1];
      if a.BrokerFailed? then Some(DeliveryError(a.code)) else NotedFailure(actions[..|actions| - 1])
  }

  /** What ended the streaming: the source's error, or a delivery failure noted before the source finished. */
  function StreamError(actions: seq<Action>): Option<Error> {
    if actions == [] then None
    else
      var a, before := actions[|actions| - 1], actions[..|actions| - 1];
      if a.SourceRaised? then Some(a.error) else if a.SourceDone? then NotedFailure(before) else StreamError(before)
  }

  /** The error the run ends with: a failed close of the source hides what ended the streaming, and any error becomes a
      delivery failure if one was noted by then. */
  function FinalError(actions: seq<Action>, closeRaised: Option<Error>): Option<Error> {
    var raised := if closeRaised.Some? then closeRaised else StreamError(actions);
    if raised.Some? && NotedFailure(actions).Some? then NotedFailure(actions) else raised
  }

  /** The state remembers just that much of the actions so far. */
  ghost predicate Remembers(h: Handle, actions: seq<Action>) {
    && h.deliveryError == NotedFailure(actions)
    && (h.runner.ClosingSource? ==> h.runner.raised == StreamError(actions))
    && (h.runner.Streaming? || h.runner.ClosingSource? ==> h.collected == LastFinished(actions))
    && (h.runner.NotStarted? || h.runner.Created? ==> LastFinished(actions).None? && h.collected.None?)
    && (h.future.Settled? && (h.future.result.status.Completed? || h.future.result.status.WaitingForUser?) ==>
          LastFinished(actions) == Some(h.future.result))
  }

  lemma StepRemembers(h: Handle, actions: seq<Action>, a: Action)
    requires Inv(h) && Remembers(h, actions) && Enabled(h, a)
    ensures Remembers(Step(h, a), actions + [a])
  {
    assert (actions + [a])[..|actions|] == actions;
  }

  lemma {:induction false} RunRemembers(h: Handle, done: seq<Action>, actions: seq<Action>, h': Handle)
    requires Inv(h) && Remembers(h, done) && Runs(h, actions, h')
    ensures Inv(h') && Remembers(h', done + actions)
    decreases |actions|
  {
    if actions == [] {
      assert done + actions == done;
    } else {
      StepKeepsInv(h, actions[0]);
      StepRemembers(h, done, actions[0]);
      RunRemembers(Step(h, actions[0]), done + [actions[0]], actions[1..], h');
      assert done + [actions[0]] + actions[1..] == done + actions;
    }
  }

  lemma StartRemembers(options: R.Options, actions: seq<Action>, h: Handle)
    requires options.Valid() && Runs(Initial(options), actions, h)
    ensures Inv(h) && Remembers(h, actions)
  {
    RunRemembers(Initial(options), [], actions, h);
    assert [] + actions == actions;
  }

  /** Over every run: a run that is reported as completed, or as waiting for the user, is so by the last terminal event
      that was collected. */
  lemma SuccessIsCollected(options: R.Options, actions: seq<Action>, h: Handle)
    requires options.Valid() && Runs(Initial(options), actions, h) && h.future.Settled?
    requires h.future.result.status.Completed? || h.future.result.status.WaitingForUser?
    ensures exists k :: 0 <= k < |actions| && actions[k] == Collect(Finished(h.future.result))
                        && forall j | k < j < |actions| :: !(actions[j].Collect? && actions[j].event.Finished?)
  {
    StartRemembers(options, actions, h);
    var k := LastFinishedIsLast(actions);
  }

  lemma {:induction false} LastFinishedIsLast(actions: seq<Action>) returns (k: nat)
    requires LastFinished(actions).Some?
    ensures k < |actions| && actions[k] == Collect(Finished(LastFinished(actions).value))
    ensures forall j | k < j < |actions| :: !(actions[j].Collect? && actions[j].event.Finished?)
    decreases |actions|
  {
    var n := |actions| - 1;
    if actions[n].Collect? && actions[n].event.Finished? {
      k := n;
    } else {
      k := LastFinishedIsLast(actions[..n]);
      assert actions[k] == actions[..n][k];
    }
  }

  /** How every run that reaches its end is settled. With no terminal event it is cancelled exactly when it ends with a
      cancellation, fails with any other error, and fails for the missing event when there is no error; a terminal event
      stands unless the run ends with an error that is no cancellation. */
  lemma SettledExactly(options: R.Options, actions: seq<Action>, h: Handle, closeRaised: Option<Error>)
    requires options.Valid() && Runs(Initial(options), actions, h) && h.runner.ClosingSource?
    ensures var error, terminal := FinalError(actions, closeRaised), LastFinished(actions);
            var h' := Step(h, Exit(closeRaised));
            && h'.runner.Ended? && h'.channel.closed
            && h'.future == Settled(
                 if error.Some? && error.value != CancelledError then RunResult(Failed, error)
                 else if terminal.Some? then terminal.value
                 else if error == Some(CancelledError) then RunResult(CancelledStatus, error)
                 else RunResult(Failed, Some(OtherError("MissingTerminalEvent"))))
            && (error.Some? && !h.resultOnly ==> h'.runnerError == error)
            && (error.None? || h.resultOnly ==> h'.runnerError == h.runnerError)
  {
    StartRemembers(options, actions, h);
  }

  /** Whoever asks first starts the runner, with an open future, and nobody starts it twice. */
  lemma AskingStarts(options: R.Options, consumeEvents: bool)
    ensures var h := Initial(options);
            && forall s | s in {Step(h, StartRun), Step(h, ConsumeEvents), Step(h, ReadResult(consumeEvents))} ::
                 s.runner.Created? && s.future.Pending? && Step(s, FirstStep).runner.Streaming?
    ensures forall h: Handle | !h.runner.NotStarted? ::
              Step(h, StartRun) == h && Step(h, ConsumeEvents).runner == h.runner && Step(h, ReadResult(consumeEvents)).runner == h.runner
  {
  }

  /** The events are granted exactly to the first who asks, unless the result alone was asked for before. Asking for the
      result takes the events exactly when nobody has them and the caller does not merely watch. */
  lemma ConsumerIff(h: Handle, consumeEvents: bool)
    requires Reachable(h)
    ensures ClaimEvents(h).1 <==> !h.eventsConsumed && !h.resultOnly
    ensures ClaimEvents(h).0.eventsConsumed <==> h.eventsConsumed || !h.resultOnly
    ensures ClaimEvents(h).0.resultOnly == h.resultOnly
    ensures AskResult(h, consumeEvents).resultOnly <==> h.resultOnly || (consumeEvents && !h.eventsConsumed)
    ensures AskResult(h, consumeEvents).eventsConsumed == h.eventsConsumed
    ensures AskResult(h, consumeEvents).runnerError == if consumeEvents && !h.eventsConsumed && !h.resultOnly then None else h.runnerError
    ensures ClaimEvents(Initial(h.channel.options)).1
    ensures Step(h, ConsumeEvents) == ClaimEvents(h).0 && Step(h, ReadResult(consumeEvents)) == AskResult(h, consumeEvents)
  {
  }

  /** The fields besides the runner and the result. */
  ghost predicate SameTalk(h: Handle, h': Handle) {
    && h'.resultOnly == h.resultOnly && h'.eventsConsumed == h.eventsConsumed
    && h'.runnerError == h.runnerError && h'.deliveryError == h.deliveryError && h'.channel == h.channel
  }

  /** The runner goes from its first step through the source to closing it, or ends before it began; only closing the
      handle settles a run that ended without a result, as cancelled, and closes its channel. */
  lemma RunnerAdvances(h: Handle, error: Error)
    requires Reachable(h)
    ensures h.runner.Created? ==>
              && Step(h, FirstStep).runner.Streaming? && SameTalk(h, Step(h, FirstStep))
              && Step(h, CancelBeforeFirstStep).runner.Ended? && Step(h, CancelBeforeFirstStep).future.Pending?
              && SameTalk(h, Step(h, CancelBeforeFirstStep))
    ensures h.runner.Streaming? ==>
              && Step(h, SourceDone).runner == ClosingSource(h.deliveryError) && SameTalk(h, Step(h, SourceDone))
              && Step(h, SourceRaised(error)).runner == ClosingSource(Some(error)) && SameTalk(h, Step(h, SourceRaised(error)))
    ensures h.runner.Ended? && h.future.Settled? ==> Step(h, HandleClosed) == h
    ensures h.runner.Ended? && !h.future.Settled? ==>
              var h' := Step(h, HandleClosed);
              && h'.future == Settled(RunResult(CancelledStatus, None)) && h'.runner.Ended?
              && h'.channel.closed && h'.channel.queue == h.channel.queue
  {
    ReachableInv(h);
  }

  /** A consumer that leaves takes the noted error with it; what happens on the channel touches nothing else. */
  lemma ChannelStepsApart(h: Handle, action: R.Action, code: string)
    ensures Step(h, ConsumerLeaves).runnerError == None && Step(h, ConsumerLeaves).channel == h.channel
    ensures Step(h, ConsumerLeaves).runner == h.runner && Step(h, ConsumerLeaves).future == h.future
    ensures Step(h, BrokerFailed(code)).deliveryError == Some(DeliveryError(code)) && Step(h, BrokerFailed(code)).channel == h.channel
    ensures Enabled(h, OnChannel(action)) ==>
              var h' := Step(h, OnChannel(action));
              && h'.channel == R.Step(h.channel, action).0 && h'.runner == h.runner && h'.future == h.future
              && h'.collected == h.collected && h'.runnerError == h.runnerError && h'.deliveryError == h.deliveryError
  {
  }
}
