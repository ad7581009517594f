/** What each operation of the injection queue answers and leaves behind, and what a run remembers of its submissions. */
module InjectionLaws {
  import opened Ordering
  import opened Optional
  import opened Injections

  /** The queue of a finished run only remembers what is still waiting. */
  ghost predicate Known(m: Manager, id: string) {
    id in m.statuses && (m.runFinished ==> m.statuses[id] == Pending)
  }

  /** Nothing is queued for an empty submission; otherwise it is queued, last in line, exactly when its id is unknown. A known
      id is a duplicate exactly when it was submitted with the same content, and a conflict if not. */
  lemma SubmittedExactly(m: Manager, item: Option<Item>)
    requires Reachable(m)
    ensures var (s, reply) := Submit(m, item);
            && (reply == Empty <==> item.None?)
            && (item.None? ==> s == m)
            && (item.Some? ==>
                  var known := item.value.id.Some? && Known(m, item.value.id.value);
                  && (reply == Queued <==> !known)
                  && (reply == Duplicate <==> known && item.value.id.value in m.inputs && m.inputs[item.value.id.value] == item.value.fingerprint)
                  && s.queue == (if known then m.queue else m.queue + [item.value])
                  && s.unfinished == m.unfinished + (if known then 0 else 1)
                  && !s.runFinished && s.messages == m.messages && s.flight == m.flight
                  && (!known && item.value.id.Some? ==>
                        && item.value.id.value in s.statuses && s.statuses[item.value.id.value] == Pending
                        && item.value.id.value in s.inputs && s.inputs[item.value.id.value] == item.value.fingerprint))
    ensures item.Some? ==> forall id | item.value.id != Some(id) ::
              (id in Submit(m, item).0.statuses <==> Known(m, id))
              && (Known(m, id) ==> Submit(m, item).0.statuses[id] == m.statuses[id] && id in m.inputs
                                   && id in Submit(m, item).0.inputs && Submit(m, item).0.inputs[id] == m.inputs[id])
  {
    ReachableInv(m);
  }

  ghost predicate Remembers(m: Manager, id: string, fingerprint: string) {
    !m.runFinished && id in m.statuses && id in m.inputs && m.inputs[id] == fingerprint
  }

  /** While a run lasts, whatever becomes of a submission, its content is remembered under its id. */
  lemma StepRemembers(m: Manager, a: Action, id: string, fingerprint: string)
    requires QueueIsPending(m.queue, m.statuses) && Enabled(m, a) && Remembers(m, id, fingerprint)
    requires !a.DoBeginRun? && !a.DoEndRun?
    ensures Remembers(Step(m, a), id, fingerprint)
  {
    if a.DoDiscard? { MarkAllExact(m.statuses, m.queue, Discarded); }
  }

  lemma {:induction false} RunRemembers(m: Manager, actions: seq<Action>, m': Manager, id: string, fingerprint: string)
    requires Inv(m) && Trace(m, actions, m') && Remembers(m, id, fingerprint)
    requires forall a | a in actions :: !a.DoBeginRun? && !a.DoEndRun?
    ensures Inv(m') && Remembers(m', id, fingerprint)
    decreases |actions|
  {
    if actions != [] {
      assert actions[0] in actions;
      StepKeepsInv(m, actions[0]);
      StepRemembers(m, actions[0], id, fingerprint);
      RunRemembers(Step(m, actions[0]), actions[1..], m', id, fingerprint);
    }
  }

  /** Within a run, submitting an id again is answered by what the first submission of it said, whatever has become of that
      one: a duplicate if the content is the same, a conflict if not; nothing is queued twice. */
  lemma ResubmittedExactly(m: Manager, first: Item, actions: seq<Action>, m': Manager, again: Item)
    requires Reachable(m) && Enabled(m, DoSubmit(Some(first))) && Submit(m, Some(first)).1 == Queued
    requires first.id.Some? && again.id == first.id
    requires Trace(Submit(m, Some(first)).0, actions, m') && forall a | a in actions :: !a.DoBeginRun? && !a.DoEndRun?
    ensures Submit(m', Some(again)) == (m', if again.fingerprint == first.fingerprint then Duplicate else Conflict)
  {
    SubmittedExactly(m, Some(first));
    ReachableInv(m);
    SubmitKeepsInv(m, Some(first));
    RunRemembers(Submit(m, Some(first)).0, actions, m', first.id.value, first.fingerprint);
  }

  /** Cancelling succeeds exactly for an item that waits or is being prepared; otherwise nothing changes. */
  lemma CancelledExactly(m: Manager, id: string)
    requires Reachable(m)
    ensures var (s, cancelled) := Cancel(m, id);
            && (cancelled <==> id in m.statuses && m.statuses[id] in {Pending, Taken})
            && (cancelled <==> InQueue(m.queue, id) || (id in m.statuses && m.statuses[id] == Taken))
            && (!cancelled ==> s == m)
            && (cancelled ==>
                  && s.statuses == m.statuses[id := Cancelled] && !InQueue(s.queue, id)
                  && s.cancelTrue == m.cancelTrue + {id} && s.messages == m.messages && s.entered == m.entered
                  && s.unfinished == m.unfinished - (if m.statuses[id] == Pending then 1 else 0)
                  && (m.statuses[id] == Taken ==> s.queue == m.queue))
  {
    ReachableInv(m);
    if id in m.statuses && m.statuses[id] == Pending {
      CancelRemovesOne(m, id);
      if InQueue(Cancel(m, id).0.queue, id) { RejectInQueue(m.queue, id, id); }
    }
  }

  /** What an item was finally marked as, if it has an id. */
  ghost predicate Marked(m: Manager, s: Manager, id: Option<string>, status: Status) {
    s.statuses == if id.Some? then m.statuses[id.value := status] else m.statuses
  }

  ghost function OneId(id: Option<string>): multiset<string> {
    if id.Some? then multiset{id.value} else multiset{}
  }

  /** Applying takes the first in line. It enters the history, last, and counts as injected unless its commit fails, in which
      case the history stays and it is discarded. */
  lemma AppliedExactly(m: Manager, commitFails: bool)
    requires m.queue != []
    ensures var s, item := ApplyNext(m, commitFails), m.queue[0];
            && s.queue == m.queue[1..] && s.unfinished == m.unfinished - 1 && s.flight == m.flight
            && s.messages == (if commitFails then m.messages else m.messages + [item])
            && s.entered == m.entered + (if commitFails then multiset{} else OneId(item.id))
            && Marked(m, s, item.id, if commitFails then Discarded else Injected)
    ensures var s, item := BeginApply(m), m.queue[0];
            && s.queue == m.queue[1..] && s.messages == m.messages && s.unfinished == m.unfinished
            && s.flight == Some(Flight(item, |m.messages|)) && Marked(m, s, item.id, Taken)
  {
  }

  /** How an awaited apply ends: the item enters exactly when it was prepared, neither the run nor it was cancelled, and the
      commit succeeds. Cancelled, it leaves the history alone; failed, it cuts it back to where the apply began. */
  lemma FinishedExactly(m: Manager, outcome: Outcome)
    requires Reachable(m) && m.flight.Some?
    ensures var s, item, start := FinishApply(m, outcome), m.flight.value.item, m.flight.value.length;
            var gone := item.id.Some? && item.id.value in m.cancelTrue;
            var cancelled := outcome.Prepared? && (outcome.runCancelled || gone);
            var entered := outcome.Prepared? && !cancelled && !outcome.commitFails;
            && s.queue == m.queue && s.flight.None? && s.unfinished == m.unfinished - 1 && start <= |m.messages|
            && s.messages == (if entered then m.messages + [item] else if cancelled then m.messages else m.messages[..start])
            && s.entered == m.entered + (if entered then OneId(item.id) else multiset{})
            && Marked(m, s, item.id, if entered then Injected else if cancelled then Cancelled else Discarded)
  {
    ReachableInv(m);
    FlightCancelledIff(m);
    assert (m.messages + [m.flight.value.item])[..m.flight.value.length] == m.messages[..m.flight.value.length];
  }

  /** An item in preparation is marked as cancelled exactly when cancel said so. */
  ghost predicate FlightMarked(m: Manager) {
    m.flight.Some? && m.flight.value.item.id.Some? ==>
      var id := m.flight.value.item.id.value;
      id in m.statuses && (m.statuses[id] == Cancelled <==> id in m.cancelTrue)
  }

  lemma SubmitMarks(m: Manager, item: Option<Item>)
    requires Inv(m) && FlightMarked(m) && Enabled(m, DoSubmit(item))
    ensures FlightMarked(Submit(m, item).0)
  {
  }

  lemma CancelMarks(m: Manager, id: string)
    requires Inv(m) && FlightMarked(m)
    ensures FlightMarked(Cancel(m, id).0)
  {
  }

  lemma DiscardMarks(m: Manager)
    requires Inv(m) && FlightMarked(m)
    ensures FlightMarked(DiscardPending(m))
  {
    MarkAllExact(m.statuses, m.queue, Discarded);
  }

  lemma StartMarks(m: Manager)
    requires Inv(m) && Enabled(m, StartApply)
    ensures FlightMarked(BeginApply(m))
  {
    TakeKeepsInv(m);
  }

  lemma StepMarks(m: Manager, a: Action)
    requires Inv(m) && Enabled(m, a) && FlightMarked(m)
    ensures FlightMarked(Step(m, a))
  {
    match a
    case DoSubmit(item) => SubmitMarks(m, item);
    case DoCancel(id) => CancelMarks(m, id);
    case DoDiscard => DiscardMarks(m);
    case DoBeginRun(_) =>
    case DoEndRun => DiscardMarks(m);
    case DoApply(_) =>
    case StartApply => StartMarks(m);
    case EndApply(_) =>
    case OtherMessage(_) =>
  }

  lemma {:induction false} TraceMarks(m: Manager, actions: seq<Action>, m': Manager)
    requires Inv(m) && FlightMarked(m) && Trace(m, actions, m')
    ensures FlightMarked(m')
    decreases |actions|
  {
    if actions != [] {
      StepKeepsInv(m, actions[0]);
      StepMarks(m, actions[0]);
      TraceMarks(Step(m, actions[0]), actions[1..], m');
    }
  }

  lemma FlightCancelledIff(m: Manager)
    requires Reachable(m)
    ensures FlightMarked(m)
  {
    var actions :| Trace(Initial(), actions, m);
    TraceMarks(Initial(), actions, m);
  }

  /** Discarding empties the line and marks exactly the waiting ids; ending the run does so too and makes the next submission
      open a new one. */
  lemma DiscardedExactly(m: Manager)
    requires Reachable(m)
    ensures var s := DiscardPending(m);
            && s.queue == [] && s.unfinished == m.unfinished - |m.queue| && s.messages == m.messages && s.flight == m.flight
            && s.statuses.Keys == m.statuses.Keys
            && forall id | id in m.statuses :: s.statuses[id] == if m.statuses[id] == Pending then Discarded else m.statuses[id]
    ensures Step(m, DoEndRun) == DiscardPending(m).(runFinished := true)
  {
    ReachableInv(m);
    MarkAllExact(m.statuses, m.queue, Discarded);
  }

  /** A new run remembers exactly the ids that wait, and starts with a clean record; it first discards them if asked to. */
  lemma BegunExactly(m: Manager, discard: bool)
    requires Reachable(m) && Enabled(m, DoBeginRun(discard))
    ensures var s := Step(m, DoBeginRun(discard));
            && !s.runFinished && s.entered == multiset{} && s.cancelTrue == {} && s.messages == m.messages
            && s.queue == (if discard then [] else m.queue)
            && (forall id :: id in s.statuses <==> !discard && id in m.statuses && m.statuses[id] == Pending)
            && forall id | id in s.statuses :: s.statuses[id] == Pending && id in s.inputs && id in m.inputs && s.inputs[id] == m.inputs[id]
  {
    ReachableInv(m);
    MarkAllExact(m.statuses, m.queue, Discarded);
  }
}
