/** Who closes a run's stream: the generator that owns the run, or the session's aclose.
    Each method is one stretch of code between two suspension points; tasks are numbered. */
module AgentSession {
  import opened Optional

  type Task = nat

  /** Where the generator of a run is. */
  datatype Place =
    | Opening       // awaiting the activation, no stream yet
    | Streaming     // awaiting the next event
    | AtYield       // handed an event to its consumer
    | Joining       // leaving, awaiting the cleanup done by aclose
    | ClosingSelf   // leaving, awaiting its own close of the stream
    | Finished

  /** `closes` counts how often the close of this run's stream was entered. */
  datatype Run = Run(place: Place, closes: nat, finishedSet: bool)

  /** The cleanup future that aclose publishes when it takes a stream over. */
  datatype Cleanup = Untouched | InProgress | Complete

  /** Where the holder of the close lock is. */
  datatype Closer =
    | NoCloser
    | AwaitingHandle       // closing the session's run handle, which may drive no stream of its own
    | AwaitingRun(run: nat)
    | ClosingStream(run: nat)
    | ClosingPlugins

  datatype Session = Session(
    closed: bool,
    closing: bool,
    activeTask: Option<Task>,
    activeFinished: Option<nat>,   // the run whose finished future is current
    driving: bool,
    external: Cleanup,
    activeEvents: Option<nat>,     // the run whose stream is registered
    runs: seq<Run>,
    closer: Closer)

  // ---- Transitions ----

  function Initial(): Session {
    Session(false, false, None, None, false, Untouched, None, [], NoCloser)
  }

  function MoveTo(s: Session, r: nat, place: Place): Session
    requires r < |s.runs|
  {
    s.(runs := s.runs[r := s.runs[r].(place := place)])
  }

  function CountClose(s: Session, r: nat): Session
    requires r < |s.runs|
  {
    s.(runs := s.runs[r := s.runs[r].(closes := s.runs[r].closes + 1)])
  }

  /** A new run is refused while another one is registered, while the session's run handle is active in another
      task, or when the session is closing. */
  function Begin(s: Session, t: Task, handleBusy: bool): (Session, bool) {
    if s.closed || s.closing || s.activeTask.Some? || handleBusy then (s, false)
    else (s.(activeTask := Some(t), activeFinished := Some(|s.runs|), driving := true, external := Untouched,
             runs := s.runs + [Run(Opening, 0, false)]), true)
  }

  function Opened(s: Session, r: nat): Session
    requires r < |s.runs|
  {
    MoveTo(s, r, Streaming).(activeEvents := Some(r))
  }

  function Emit(s: Session, r: nat): Session
    requires r < |s.runs|
  {
    MoveTo(s, r, AtYield).(driving := false)
  }

  /** Entering the finally block: join a cleanup that aclose started, otherwise close the stream here. */
  function Leave(s: Session, r: nat): Session
    requires r < |s.runs|
  {
    if !s.external.Untouched? then MoveTo(s, r, Joining) else MoveTo(CountClose(s, r), r, ClosingSelf)
  }

  /** The consumer comes back, possibly from another task; `stop` when it closes or throws into the generator. */
  function Resume(s: Session, r: nat, t: Task, stop: bool): Session
    requires r < |s.runs|
  {
    var s' := s.(activeTask := Some(t), driving := true);
    if stop || s.closing then Leave(s', r) else MoveTo(s', r, Streaming)
  }

  /** The innermost finally: the session's registration of the run is cleared. */
  function Finish(s: Session, r: nat): Session
    requires r < |s.runs|
  {
    s.(activeEvents := None, activeTask := None, activeFinished := None, driving := false,
       runs := s.runs[r := s.runs[r].(place := Finished, finishedSet := true)])
  }

  /** `aclose` from taking the lock to its first suspension; an active run handle is closed before anything else when
      no run is registered. */
  function EnterClose(s: Session, c: Task, handleActive: bool, done: bool): Session
    requires s.closer.NoCloser?
    requires s.activeFinished.Some? ==> s.activeFinished.value < |s.runs|
  {
    if s.closed then s
    else if s.activeTask.None? && handleActive then s.(closing := true, closer := AwaitingHandle)
    else TakeOver(s.(closing := true), c, done)
  }

  /** What aclose does about the run that is registered now: wait for it, close its stream, or go on. `done` says that
      the registered task has ended. */
  function TakeOver(s: Session, c: Task, done: bool): Session
    requires s.activeFinished.Some? ==> s.activeFinished.value < |s.runs|
  {
    if s.activeTask.None? then s.(closer := ClosingPlugins)
    else if s.driving && s.activeTask.value != c && !done then
      if s.activeFinished.Some? then s.(closer := AwaitingRun(s.activeFinished.value)) else s.(closer := ClosingPlugins)
    else if s.activeFinished.Some? then
      CountClose(s, s.activeFinished.value).(external := InProgress, closer := ClosingStream(s.activeFinished.value))
    else s.(closer := ClosingPlugins)
  }

  /** The external cleanup is over; on `error` the exception leaves aclose and the lock is released. */
  function StreamClosed(s: Session, error: bool): Session
    requires s.closer.ClosingStream?
    requires s.activeFinished.Some? ==> s.activeFinished.value < |s.runs|
  {
    s.(external := Complete, activeEvents := None, activeTask := None, driving := false, activeFinished := None,
       runs := if s.activeFinished.Some? then
                 s.runs[s.activeFinished.value := s.runs[s.activeFinished.value].(finishedSet := true)]
               else s.runs,
       closer := if error then NoCloser else ClosingPlugins)
  }

  datatype Action =
    | BeginRun(t: Task, handleBusy: bool)
    | StreamOpened(r: nat)
    | EventArrives(r: nat)
    | StreamEnds(r: nat)                         // exhausted, failed or cancelled; also a failed opening
    | ConsumerResumes(r: nat, t: Task, stop: bool)
    | JoinEnds(r: nat, cancelled: bool)
    | SelfCloseEnds(r: nat)
    | AcloseBegins(c: Task, handleActive: bool, done: bool)
    | HandleClosed(c: Task, done: bool, error: bool)         // the run handle is closed, or closing it failed
    | AwaitedRunFinished
    | AcloseInterrupted                          // the closing task is cancelled while it waits for the run
    | ExternalCloseEnds(error: bool)
    | PluginsClosed(error: bool)

  predicate InPlace(s: Session, r: nat, place: Place) {
    r < |s.runs| && s.runs[r].place == place
  }

  /** aclose is not called by whichever asyncio task is executing inside the stream at that moment, and a task that has
      ended is not executing there. */
  predicate MayTakeOver(s: Session, c: Task, done: bool) {
    && !(s.driving && s.activeTask.Some? && (s.activeTask.value == c || done))
    && (s.activeFinished.Some? ==> s.activeFinished.value < |s.runs|)
  }

  predicate Enabled(s: Session, a: Action) {
    match a
    case BeginRun(_, _) => true
    case StreamOpened(r) => InPlace(s, r, Opening)
    case EventArrives(r) => InPlace(s, r, Streaming)
    case StreamEnds(r) => InPlace(s, r, Opening) || InPlace(s, r, Streaming)
    case ConsumerResumes(r, _, _) => InPlace(s, r, AtYield)
    case JoinEnds(r, cancelled) => InPlace(s, r, Joining) && (cancelled || s.external.Complete?)
    case SelfCloseEnds(r) => InPlace(s, r, ClosingSelf)
    case AcloseBegins(c, _, done) => s.closer.NoCloser? && MayTakeOver(s, c, done)
    case HandleClosed(c, done, _) => s.closer.AwaitingHandle? && MayTakeOver(s, c, done)
    case AwaitedRunFinished => s.closer.AwaitingRun? && s.closer.run < |s.runs| && s.runs[s.closer.run].finishedSet
    case AcloseInterrupted => s.closer.AwaitingRun?
    case ExternalCloseEnds(_) => s.closer.ClosingStream? && (s.activeFinished.Some? ==> s.activeFinished.value < |s.runs|)
    case PluginsClosed(_) => s.closer.ClosingPlugins?
  }

  function Step(s: Session, a: Action): Session
    requires Enabled(s, a)
  {
    match a
    case BeginRun(t, handleBusy) => Begin(s, t, handleBusy).0
    case StreamOpened(r) => Opened(s, r)
    case EventArrives(r) => Emit(s, r)
    case StreamEnds(r) => Leave(s, r)
    case ConsumerResumes(r, t, stop) => Resume(s, r, t, stop)
    case JoinEnds(r, _) => Finish(s, r)
    case SelfCloseEnds(r) => Finish(s, r)
    case AcloseBegins(c, handleActive, done) => EnterClose(s, c, handleActive, done)
    case HandleClosed(c, done, error) => if error then s.(closer := NoCloser) else TakeOver(s, c, done)
    case AwaitedRunFinished => s.(closer := ClosingPlugins)
    case AcloseInterrupted => s.(closer := NoCloser)
    case ExternalCloseEnds(error) => StreamClosed(s, error)
    case PluginsClosed(error) => if error then s.(closer := NoCloser) else s.(closed := true, closer := NoCloser)
  }

  ghost predicate Trace(s: Session, actions: seq<Action>, s': Session)
    decreases |actions|
  {
    if actions == [] then s == s'
    else Enabled(s, actions[0]) && Trace(Step(s, actions[0]), actions[1..], s')
  }

  ghost predicate Reachable(s: Session) {
    exists actions :: Trace(Initial(), actions, s)
  }

  // ---- The class ----

  class SessionRuns {
    var closed: bool
    var closing: bool
    var activeTask: Option<Task>
    var activeFinished: Option<nat>
    var driving: bool
    var external: Cleanup
    var activeEvents: Option<nat>
    var runs: seq<Run>
    var closer: Closer

    ghost function View(): Session
      reads this
    {
      Session(closed, closing, activeTask, activeFinished, driving, external, activeEvents, runs, closer)
    }

    constructor ()
      ensures View() == Initial()
    {
      closed, closing, activeTask, activeFinished, driving := false, false, None, None, false;
      external, activeEvents, runs, closer := Untouched, None, [], NoCloser;
    }

    method StartRun(t: Task, handleBusy: bool) returns (started: bool)
      modifies this
      ensures (View(), started) == Begin(old(View()), t, handleBusy)
    {
      if closed || closing || activeTask.Some? || handleBusy {
        return false;
      }
      activeTask, activeFinished := Some(t), Some(|runs|);
      driving, external := true, Untouched;
      runs := runs + [Run(Opening, 0, false)];
      started := true;
    }

    method EnterFinally(r: nat)
      requires r < |runs|
      modifies this`runs
      ensures View() == Leave(old(View()), r)
    {
      if !external.Untouched? {
        runs := runs[r := runs[r].(place := Joining)];
      } else {
        runs := runs[r := runs[r].(place := ClosingSelf, closes := runs[r].closes + 1)];
      }
    }

    method YieldEvent(r: nat)
      requires r < |runs|
      modifies this
      ensures View() == Emit(old(View()), r)
    {
      driving := false;
      runs := runs[r := runs[r].(place := AtYield)];
    }

    method ResumeRun(r: nat, t: Task, stop: bool)
      requires r < |runs|
      modifies this
      ensures View() == Resume(old(View()), r, t, stop)
    {
      activeTask := Some(t);
      driving := true;
      if stop || closing {
        EnterFinally(r);
      } else {
        runs := runs[r := runs[r].(place := Streaming)];
      }
    }

    method FinishRun(r: nat)
      requires r < |runs|
      modifies this
      ensures View() == Finish(old(View()), r)
    {
      activeEvents, activeTask, activeFinished := None, None, None;
      driving := false;
      runs := runs[r := runs[r].(place := Finished, finishedSet := true)];
    }

    method BeginAclose(c: Task, handleActive: bool, done: bool)
      requires closer.NoCloser? && (activeFinished.Some? ==> activeFinished.value < |runs|)
      modifies this
      ensures View() == EnterClose(old(View()), c, handleActive, done)
    {
      if closed {
        return;
      }
      closing := true;
      if activeTask.None? && handleActive {
        closer := AwaitingHandle;
        return;
      }
      TakeOverRun(c, done);
    }

    method TakeOverRun(c: Task, done: bool)
      requires activeFinished.Some? ==> activeFinished.value < |runs|
      modifies this
      ensures View() == TakeOver(old(View()), c, done)
    {
      closer := ClosingPlugins;
      if activeTask.Some? {
        if driving && activeTask.value != c && !done {
          if activeFinished.Some? {
            closer := AwaitingRun(activeFinished.value);
          }
        } else if activeFinished.Some? {
          var r := activeFinished.value;
          external := InProgress;
          runs := runs[r := runs[r].(closes := runs[r].closes + 1)];
          closer := ClosingStream(r);
        }
      }
    }

    method EndExternalClose(error: bool)
      requires closer.ClosingStream? && (activeFinished.Some? ==> activeFinished.value < |runs|)
      modifies this
      ensures View() == StreamClosed(old(View()), error)
    {
      external := Complete;
      activeEvents, activeTask, driving := None, None, false;
      if activeFinished.Some? {
        runs := runs[activeFinished.value := runs[activeFinished.value].(finishedSet := true)];
        activeFinished := None;
      }
      closer := if error then NoCloser else ClosingPlugins;
    }
  }

  // ---- Invariant of every interleaving ----

  /** The last run owns the session: nothing outside has touched its stream. */
  ghost predicate Owned(s: Session, r: nat)
    requires r < |s.runs|
  {
    var run := s.runs[r];
    && s.external.Untouched?
    && s.activeTask.Some? && s.activeFinished == Some(r)
    && !run.finishedSet
    && run.closes == (if run.place.ClosingSelf? then 1 else 0)
    && !run.place.Joining?
    && (s.driving <==> !run.place.AtYield?)
    && (run.place.Streaming? || run.place.AtYield? ==> s.activeEvents == Some(r))
    && !s.closer.ClosingStream? && !s.closer.ClosingPlugins? && !s.closer.AwaitingHandle?
    && (s.closer.AwaitingRun? ==> s.closer.run == r)
    && !s.closed
  }

  /** aclose has taken the last run's stream over; its generator can only come back to join. */
  ghost predicate TakenOver(s: Session, r: nat)
    requires r < |s.runs|
  {
    var run := s.runs[r];
    && !s.external.Untouched? && s.closing
    && run.closes == 1
    && (run.place.AtYield? || run.place.Joining?)
    && (s.external.InProgress? <==> s.closer == ClosingStream(r))
    && (s.external.InProgress? ==> s.activeTask.Some? && s.activeFinished == Some(r))
    && (s.external.Complete? ==> s.activeFinished.None? && !s.closer.ClosingStream?)
    && (s.external.Complete? && run.place.AtYield? ==> s.activeTask.None? && !s.driving)
    && !s.closer.AwaitingRun?
    && (s.activeTask.None? ==> !s.driving)
    && (s.activeTask.Some? && s.external.Complete? ==> s.driving)
  }

  /** No run is live. */
  ghost predicate AtRest(s: Session) {
    && s.activeTask.None? && s.activeFinished.None? && s.activeEvents.None? && !s.driving
    && (s.closer.ClosingStream? ==> s.closing && !s.external.Untouched?)
    && (s.closer.AwaitingRun? ==> s.closer.run < |s.runs| && s.runs[s.closer.run].finishedSet)
  }

  ghost predicate Inv(s: Session) {
    && (s.closed || !s.closer.NoCloser? ==> s.closing)
    && (s.closed ==> s.closer.NoCloser?)
    && (forall i | 0 <= i < |s.runs| && s.runs[i].place.Finished? :: s.runs[i].closes == 1 && s.runs[i].finishedSet)
    && (forall i | 0 <= i < |s.runs| - 1 :: s.runs[i].place.Finished?)
    && (if |s.runs| > 0 && !s.runs[|s.runs| - 1].place.Finished?
        then Owned(s, |s.runs| - 1) || TakenOver(s, |s.runs| - 1)
        else AtRest(s))
  }

  ghost predicate GoingOn(a: Action) {
    a.BeginRun? || a.StreamOpened? || a.EventArrives? || a.ConsumerResumes?
  }

  ghost predicate Leaving(a: Action) {
    a.StreamEnds? || a.JoinEnds? || a.SelfCloseEnds?
  }

  lemma GoingOnKeepsInv(s: Session, a: Action)
    requires Inv(s) && Enabled(s, a) && GoingOn(a)
    ensures Inv(Step(s, a))
  {
  }

  lemma LeavingKeepsInv(s: Session, a: Action)
    requires Inv(s) && Enabled(s, a) && Leaving(a)
    ensures Inv(Step(s, a))
  {
  }

  predicate TakingOver(a: Action) {
    a.AcloseBegins? || a.HandleClosed?
  }

  lemma TakingOverKeepsInv(s: Session, a: Action)
    requires Inv(s) && Enabled(s, a) && TakingOver(a)
    ensures Inv(Step(s, a))
  {
  }

  lemma CloserStepKeepsInv(s: Session, a: Action)
    requires Inv(s) && Enabled(s, a) && !GoingOn(a) && !Leaving(a) && !TakingOver(a)
    ensures Inv(Step(s, a))
  {
  }

  lemma StepKeepsInv(s: Session, a: Action)
    requires Inv(s) && Enabled(s, a)
    ensures Inv(Step(s, a))
  {
    if GoingOn(a) {
      GoingOnKeepsInv(s, a);
    } else if Leaving(a) {
      LeavingKeepsInv(s, a);
    } else if TakingOver(a) {
      TakingOverKeepsInv(s, a);
    } else {
      CloserStepKeepsInv(s, a);
    }
  }

  lemma {:induction false} TraceKeepsInv(s: Session, actions: seq<Action>, s': Session)
    requires Inv(s) && Trace(s, actions, s')
    ensures Inv(s')
    decreases |actions|
  {
    if actions != [] {
      StepKeepsInv(s, actions[0]);
      TraceKeepsInv(Step(s, actions[0]), actions[1..], s');
    }
  }

  lemma ReachableInv(s: Session)
    requires Reachable(s)
    ensures Inv(s)
  {
    var actions :| Trace(Initial(), actions, s);
    TraceKeepsInv(Initial(), actions, s);
  }

  // ---- Consequences ----

  /** At most one run is live, and every run's stream is closed at most once, exactly once by the time it finishes. */
  lemma ClosedExactlyOnce(s: Session, r: nat)
    requires Reachable(s) && r < |s.runs|
    ensures s.runs[r].closes <= 1
    ensures s.runs[r].place.Finished? || s.runs[r].place.Joining? || s.runs[r].place.ClosingSelf? ==> s.runs[r].closes == 1
    ensures r < |s.runs| - 1 ==> s.runs[r].place.Finished?
  {
    ReachableInv(s);
  }

  /** A consumer that comes back after aclose took the stream over joins that cleanup and closes nothing itself. */
  lemma ResumingConsumerJoins(s: Session, r: nat, t: Task, stop: bool)
    requires Reachable(s) && InPlace(s, r, AtYield) && !s.external.Untouched?
    ensures Resume(s, r, t, stop).runs[r] == s.runs[r].(place := Joining)
    ensures Resume(s, r, t, stop).runs[r].closes == 1
  {
    ReachableInv(s);
  }

  /** Once aclose has announced itself, a live generator cannot continue past its next resume. */
  lemma ClosingStopsTheRun(s: Session, r: nat, t: Task, stop: bool)
    requires Reachable(s) && s.closing && InPlace(s, r, AtYield)
    ensures var p := Resume(s, r, t, stop).runs[r].place; p.Joining? || p.ClosingSelf?
    ensures forall handleBusy :: Begin(s, t, handleBusy) == (s, false)
  {
    ReachableInv(s);
  }

  /** When the session reports closed, or is down to closing its plugins, every run's stream has been closed
      exactly once and no generator is still using one. */
  lemma ClosedMeansReleased(s: Session, r: nat)
    requires Reachable(s) && (s.closed || s.closer.ClosingPlugins?) && r < |s.runs|
    ensures s.runs[r].closes == 1
    ensures !s.runs[r].place.Opening? && !s.runs[r].place.Streaming? && !s.runs[r].place.ClosingSelf?
  {
    ReachableInv(s);
  }

  /** While a stream is registered it belongs to the one live run, so aclose can only ever close that run's stream. */
  lemma RegisteredStreamIsLive(s: Session, c: Task, done: bool)
    requires Reachable(s) && MayTakeOver(s, c, done) && (s.closer.NoCloser? || s.closer.AwaitingHandle?) && !s.closed
    requires TakeOver(s, c, done).closer.ClosingStream?
    ensures s.activeEvents == Some(|s.runs| - 1) && TakeOver(s, c, done).closer == ClosingStream(|s.runs| - 1)
    ensures s.runs[|s.runs| - 1].place.AtYield? && s.runs[|s.runs| - 1].closes == 0
  {
    ReachableInv(s);
  }

  // ---- What goes on ----

  /** A resumed generator goes round its loop exactly when its consumer does not stop it and the session is not closing,
      whichever task resumes it; its stream is then open and registered, and that task drives it. */
  lemma ResumeGoesOnIff(s: Session, r: nat, t: Task, stop: bool)
    requires Reachable(s) && InPlace(s, r, AtYield)
    ensures var s' := Step(s, ConsumerResumes(r, t, stop));
            && (s'.runs[r].place.Streaming? <==> !stop && !s.closing)
            && s'.driving && s'.activeTask == Some(t)
            && if !stop && !s.closing then
                 s'.runs == s.runs[r := Run(Streaming, 0, false)] && s'.activeEvents == Some(r) && s'.external.Untouched?
               else s'.runs[r].closes == 1 && (if s.external.Untouched? then s'.runs[r].place.ClosingSelf? else s'.runs[r].place.Joining?)
  {
    ReachableInv(s);
  }

  /** A run starts exactly when the session is neither closed nor closing, no handle is busy elsewhere, and every run
      before it has finished. */
  lemma StartsIff(s: Session, t: Task, handleBusy: bool)
    requires Reachable(s)
    ensures var (s', started) := Begin(s, t, handleBusy);
            && (started <==> !s.closed && !s.closing && !handleBusy && forall i | 0 <= i < |s.runs| :: s.runs[i].place.Finished?)
            && if started then
                 s'.runs == s.runs + [Run(Opening, 0, false)] && s'.driving && s'.activeTask == Some(t)
               else s' == s
    ensures Begin(Initial(), t, false).1
  {
    ReachableInv(s);
  }

  /** A started run gets its stream, hands on each event with the session not driving, and once it has left by either
      way it is finished and the next run may start. */
  lemma RunProgresses(s: Session, r: nat, cancelled: bool)
    requires Reachable(s)
    ensures InPlace(s, r, Opening) ==>
              Step(s, StreamOpened(r)).runs[r].place.Streaming? && Step(s, StreamOpened(r)).activeEvents == Some(r)
    ensures InPlace(s, r, Streaming) ==>
              Step(s, EventArrives(r)).runs[r].place.AtYield? && !Step(s, EventArrives(r)).driving
    ensures InPlace(s, r, Opening) || InPlace(s, r, Streaming) ==>
              Step(s, StreamEnds(r)).runs[r] == Run(ClosingSelf, 1, false)
    ensures InPlace(s, r, ClosingSelf) ==>
              Step(s, SelfCloseEnds(r)).runs[r] == Run(Finished, 1, true)
              && (!s.closing ==> Begin(Step(s, SelfCloseEnds(r)), 0, false).1)
    ensures Enabled(s, JoinEnds(r, cancelled)) ==> Step(s, JoinEnds(r, cancelled)).runs[r] == Run(Finished, 1, true)
  {
    ReachableInv(s);
  }

  /** Every run so far has finished. */
  ghost predicate NoneLive(s: Session) {
    forall i | 0 <= i < |s.runs| :: s.runs[i].place.Finished?
  }

  /** Closing an idle session closes a busy handle first and then the plug-ins, after which the session is closed. With a
      run at a yield it closes that run's stream, and with a driving one it waits for that run. */
  lemma ClosingProceeds(s: Session, c: Task, handleActive: bool, done: bool)
    requires Reachable(s) && Enabled(s, AcloseBegins(c, handleActive, done)) && !s.closed && !s.closing
    ensures var s', last := Step(s, AcloseBegins(c, handleActive, done)), |s.runs| - 1;
            && s'.closing
            && if NoneLive(s) then
                 s'.runs == s.runs && s'.closer == if handleActive then AwaitingHandle else ClosingPlugins
               else if s.runs[last].place.AtYield? then
                 s'.closer == ClosingStream(last) && s'.external.InProgress? && s'.runs == s.runs[last := Run(AtYield, 1, false)]
               else s'.closer == AwaitingRun(last) && s'.runs == s.runs
  {
    ReachableInv(s);
  }

  /** Once the cleanup of a taken-over stream is over, the run it belonged to counts as finished for whoever waits, and
      nothing is registered any more. */
  lemma CleanupEnds(s: Session, error: bool)
    requires Reachable(s) && Enabled(s, ExternalCloseEnds(error))
    ensures var s' := Step(s, ExternalCloseEnds(error));
            && s'.external.Complete? && s'.closer == (if error then NoCloser else ClosingPlugins)
            && |s'.runs| == |s.runs|
            && (forall i | 0 <= i < |s.runs| ::
                  s'.runs[i] == if s.activeFinished == Some(i) then s.runs[i].(finishedSet := true) else s.runs[i])
            && s'.activeTask == None && s'.activeFinished == None && s'.activeEvents == None && !s'.driving
  {
  }

  /** Each wait of closing ends in the next stage: the handle's and a driving run's in closing the plug-ins, and that in a
      closed session, unless it fails. */
  lemma ClosingAdvances(s: Session, c: Task, done: bool, error: bool)
    requires Reachable(s)
    ensures Enabled(s, AwaitedRunFinished) ==> Step(s, AwaitedRunFinished) == s.(closer := ClosingPlugins)
    ensures Enabled(s, AcloseInterrupted) ==> Step(s, AcloseInterrupted) == s.(closer := NoCloser)
    ensures Enabled(s, PluginsClosed(error)) ==>
              Step(s, PluginsClosed(error)).closer.NoCloser? && (Step(s, PluginsClosed(error)).closed <==> !error)
    ensures Enabled(s, HandleClosed(c, done, error)) ==>
              Step(s, HandleClosed(c, done, error)) == s.(closer := if error then NoCloser else ClosingPlugins)
  {
    ReachableInv(s);
  }
}
