/** The injection queue of a run: submission, cancellation, discarding, re-scoping, and the
    take / prepare / commit cycle that moves an injection into the message history. */
module Injections {
  import opened Ordering
  import opened Optional

  datatype Status = Pending | Taken | Injected | Cancelled | Discarded

  /** A parsed injection; the fingerprint identifies its content across resubmissions. */
  datatype Item = Item(id: Option<string>, fingerprint: string, text: string)

  /** An apply that has taken its item and awaits preparation; `length` is the history length it started from. */
  datatype Flight = Flight(item: Item, length: nat)

  datatype Manager = Manager(
    queue: seq<Item>,
    statuses: map<string, Status>,
    inputs: map<string, string>,
    runFinished: bool,
    unfinished: int,
    flight: Option<Flight>,
    messages: seq<Item>,
    entered: multiset<string>,    // ids that entered the history in this run
    cancelTrue: set<string>)      // ids for which cancel returned true in this run

  datatype Reply = Queued | Empty | Duplicate | Conflict

  datatype Outcome =
    | PreparationFailed
    | Prepared(runCancelled: bool, commitFails: bool)

  // ---- Transitions ----

  function Initial(): Manager {
    Manager([], map[], map[], false, 0, None, [], multiset{}, {})
  }

  function SetStatus(m: Manager, id: Option<string>, status: Status): Manager {
    if id.Some? then m.(statuses := m.statuses[id.value := status]) else m
  }

  function BeginRun(m: Manager): Manager {
    var kept := map id | id in m.statuses && m.statuses[id] == Pending :: m.statuses[id];
    m.(statuses := kept,
       inputs := map id | id in kept && id in m.inputs :: m.inputs[id],
       runFinished := false, entered := multiset{}, cancelTrue := {})
  }

  /** `submit`; `item` is absent when there is nothing to inject. */
  function Submit(m: Manager, item: Option<Item>): (Manager, Reply) {
    if item.None? then (m, Empty)
    else
      var s := if m.runFinished then BeginRun(m) else m;
      var i := item.value;
      if i.id.Some? && i.id.value in s.statuses then
        if i.id.value in s.inputs && s.inputs[i.id.value] == i.fingerprint then (s, Duplicate) else (s, Conflict)
      else
        var q := s.(queue := s.queue + [i], unfinished := s.unfinished + 1);
        if i.id.Some? then
          (q.(statuses := q.statuses[i.id.value := Pending], inputs := q.inputs[i.id.value := i.fingerprint]), Queued)
        else (q, Queued)
  }

  function Take(m: Manager): Manager
    requires m.queue != []
  {
    SetStatus(m.(queue := m.queue[1..]), m.queue[0].id, Taken)
  }

  function HasId(id: string): Item -> bool {
    (item: Item) => item.id == Some(id)
  }

  function Cancel(m: Manager, id: string): (Manager, bool) {
    if id in m.statuses && m.statuses[id] == Taken then
      (m.(statuses := m.statuses[id := Cancelled], cancelTrue := m.cancelTrue + {id}), true)
    else if id !in m.statuses || m.statuses[id] != Pending then (m, false)
    else
      var mine := Filter(m.queue, HasId(id));
      var s := m.(queue := Reject(m.queue, HasId(id)), unfinished := m.unfinished - |mine|);
      if mine == [] then (s, false)
      else (s.(statuses := s.statuses[id := Cancelled], cancelTrue := s.cancelTrue + {id}), true)
  }

  function MarkAll(statuses: map<string, Status>, items: seq<Item>, status: Status): map<string, Status>
    decreases |items|
  {
    if items == [] then statuses
    else
      var rest := if items[0].id.Some? then statuses[items[0].id.value := status] else statuses;
      MarkAll(rest, items[1..], status)
  }

  function DiscardPending(m: Manager): Manager {
    m.(queue := [], unfinished := m.unfinished - |m.queue|, statuses := MarkAll(m.statuses, m.queue, Discarded))
  }

  function EndRun(m: Manager): Manager {
    DiscardPending(m).(runFinished := true)
  }

  function Enter(m: Manager, item: Item): Manager {
    SetStatus(m.(messages := m.messages + [item],
                 unfinished := m.unfinished - 1,
                 entered := if item.id.Some? then m.entered + multiset{item.id.value} else m.entered),
              item.id, Injected)
  }

  /** `apply_next`: take, append and commit without suspending. */
  function ApplyNext(m: Manager, commitFails: bool): Manager
    requires m.queue != []
  {
    var item, t := m.queue[0], Take(m);
    if commitFails then SetStatus(t.(unfinished := t.unfinished - 1), item.id, Discarded)
    else Enter(t, item)
  }

  /** `aapply_next` up to the awaited preparation. */
  function BeginApply(m: Manager): Manager
    requires m.queue != []
  {
    Take(m).(flight := Some(Flight(m.queue[0], |m.messages|)))
  }

  function Prefix(s: seq<Item>, n: nat): seq<Item> {
    if n <= |s| then s[..n] else s
  }

  predicate CancelledInFlight(m: Manager, item: Item) {
    item.id.Some? && item.id.value in m.statuses && m.statuses[item.id.value] == Cancelled
  }

  /** The rest of `aapply_next`. */
  function FinishApply(m: Manager, outcome: Outcome): Manager
    requires m.flight.Some?
  {
    var item := m.flight.value.item;
    var s := m.(flight := None);
    if outcome.PreparationFailed? then
      SetStatus(s.(messages := Prefix(s.messages, m.flight.value.length), unfinished := s.unfinished - 1), item.id, Discarded)
    else if outcome.runCancelled || CancelledInFlight(s, item) then
      SetStatus(s.(unfinished := s.unfinished - 1), item.id, Cancelled)
    else if outcome.commitFails then
      SetStatus(s.(messages := Prefix(s.messages + [item], m.flight.value.length), unfinished := s.unfinished - 1), item.id, Discarded)
    else Enter(s, item)
  }

  datatype Action =
    | DoSubmit(item: Option<Item>)
    | DoCancel(id: string)
    | DoDiscard
    | DoBeginRun(discard: bool)
    | DoEndRun
    | DoApply(commitFails: bool)
    | StartApply
    | EndApply(outcome: Outcome)
    | OtherMessage(message: Item)   // the run appends something of its own to the history

  /** One apply at a time; while it is awaited no new run scope begins. */
  predicate Enabled(m: Manager, a: Action) {
    match a
    case DoSubmit(_) => m.flight.Some? ==> !m.runFinished
    case DoBeginRun(_) => m.flight.None?
    case DoApply(_) => m.flight.None? && m.queue != []
    case StartApply => m.flight.None? && m.queue != []
    case EndApply(_) => m.flight.Some?
    case _ => true
  }

  function Step(m: Manager, a: Action): Manager
    requires Enabled(m, a)
  {
    match a
    case DoSubmit(item) => Submit(m, item).0
    case DoCancel(id) => Cancel(m, id).0
    case DoDiscard => DiscardPending(m)
    case DoBeginRun(discard) => BeginRun(if discard then DiscardPending(m) else m)
    case DoEndRun => EndRun(m)
    case DoApply(commitFails) => ApplyNext(m, commitFails)
    case StartApply => BeginApply(m)
    case EndApply(outcome) => FinishApply(m, outcome)
    case OtherMessage(message) => m.(messages := m.messages + [message])
  }

  ghost predicate Trace(m: Manager, actions: seq<Action>, m': Manager)
    decreases |actions|
  {
    if actions == [] then m == m'
    else Enabled(m, actions[0]) && Trace(Step(m, actions[0]), actions[1..], m')
  }

  ghost predicate Reachable(m: Manager) {
    exists actions :: Trace(Initial(), actions, m)
  }

  // ---- The class ----

  /** What draining the first `n` items for `id` has kept, and how many it has dropped. */
  ghost predicate Drained(all: seq<Item>, n: nat, id: string, kept: seq<Item>, dropped: int) {
    n <= |all| && kept == Reject(all[..n], HasId(id)) && dropped == |Filter(all[..n], HasId(id))|
  }

  lemma DrainOne(all: seq<Item>, n: nat, id: string, kept: seq<Item>, dropped: int)
    requires n < |all| && Drained(all, n, id, kept, dropped)
    ensures all[n].id == Some(id) ==> Drained(all, n + 1, id, kept, dropped + 1)
    ensures all[n].id != Some(id) ==> Drained(all, n + 1, id, kept + [all[n]], dropped)
  {
    assert all[..n + 1] == all[..n] + [all[n]];
    FilterSnoc(all[..n], all[n], HasId(id));
  }

  class InjectionManager {
    var queue: seq<Item>
    var statuses: map<string, Status>
    var inputs: map<string, string>
    var runFinished: bool
    var unfinished: int
    var flight: Option<Flight>
    var messages: seq<Item>
    ghost var entered: multiset<string>
    ghost var cancelTrue: set<string>

    ghost function View(): Manager
      reads this
    {
      Manager(queue, statuses, inputs, runFinished, unfinished, flight, messages, entered, cancelTrue)
    }

    constructor ()
      ensures View() == Initial()
    {
      queue, statuses, inputs, runFinished, unfinished := [], map[], map[], false, 0;
      flight, messages, entered, cancelTrue := None, [], multiset{}, {};
    }

    method StartScope()
      modifies this
      ensures View() == BeginRun(old(View()))
    {
      statuses := map id | id in statuses && statuses[id] == Pending :: statuses[id];
      inputs := map id | id in statuses && id in inputs :: inputs[id];
      runFinished, entered, cancelTrue := false, multiset{}, {};
    }

    method SubmitItem(item: Option<Item>) returns (reply: Reply)
      modifies this
      ensures (View(), reply) == Submit(old(View()), item)
    {
      if item.None? {
        return Empty;
      }
      if runFinished {
        StartScope();
      }
      var id, fingerprint := item.value.id, item.value.fingerprint;
      if id.Some? && id.value in statuses {
        return if id.value in inputs && inputs[id.value] == fingerprint then Duplicate else Conflict;
      }
      queue, unfinished := queue + [item.value], unfinished + 1;
      if id.Some? {
        statuses, inputs := statuses[id.value := Pending], inputs[id.value := fingerprint];
      }
      reply := Queued;
    }

    /** Empties the queue, keeping everything but the items with this id. */
    method DrainExcept(id: string) returns (kept: seq<Item>, removed: bool)
      modifies this`queue, this`unfinished
      ensures queue == [] && kept == Reject(old(queue), HasId(id))
      ensures removed <==> Filter(old(queue), HasId(id)) != []
      ensures unfinished == old(unfinished) - |Filter(old(queue), HasId(id))|
    {
      ghost var all, n := queue, 0;
      kept, removed := [], false;
      while queue != []
        invariant n <= |all| && queue == all[n..]
        invariant Drained(all, n, id, kept, old(unfinished) - unfinished)
        invariant removed <==> unfinished < old(unfinished)
        decreases |queue|
      {
        var item := queue[0];
        DrainOne(all, n, id, kept, old(unfinished) - unfinished);
        queue, n := queue[1..], n + 1;
        if item.id == Some(id) {
          removed, unfinished := true, unfinished - 1;
        } else {
          kept := kept + [item];
        }
      }
      assert all[..n] == all;
    }

    method PutBack(kept: seq<Item>)
      requires queue == []
      modifies this`queue, this`unfinished
      ensures queue == kept && unfinished == old(unfinished)
    {
      for k := 0 to |kept|
        invariant queue == kept[..k] && unfinished == old(unfinished)
      {
        queue, unfinished := queue + [kept[k]], unfinished + 1;
        unfinished := unfinished - 1;
      }
    }

    method RemoveQueued(id: string) returns (removed: bool)
      modifies this`queue, this`unfinished
      ensures queue == Reject(old(queue), HasId(id))
      ensures removed <==> Filter(old(queue), HasId(id)) != []
      ensures unfinished == old(unfinished) - |Filter(old(queue), HasId(id))|
    {
      var kept;
      kept, removed := DrainExcept(id);
      PutBack(kept);
    }

    /** The pending item is found by draining the queue and putting everything else back. */
    method CancelItem(id: string) returns (cancelled: bool)
      modifies this
      ensures (View(), cancelled) == Cancel(old(View()), id)
    {
      if id in statuses && statuses[id] == Taken {
        statuses, cancelTrue := statuses[id := Cancelled], cancelTrue + {id};
        return true;
      }
      if id !in statuses || statuses[id] != Pending {
        return false;
      }
      var removed := RemoveQueued(id);
      if removed {
        statuses, cancelTrue := statuses[id := Cancelled], cancelTrue + {id};
      }
      cancelled := removed;
    }

    method DiscardAll()
      modifies this
      ensures View() == DiscardPending(old(View()))
    {
      while queue != []
        invariant DiscardPending(View()) == DiscardPending(old(View()))
        decreases |queue|
      {
        var item := queue[0];
        queue, unfinished := queue[1..], unfinished - 1;
        if item.id.Some? {
          statuses := statuses[item.id.value := Discarded];
        }
      }
    }

    method EndScope()
      modifies this
      ensures View() == EndRun(old(View()))
    {
      DiscardAll();
      runFinished := true;
    }

    method Mark(id: Option<string>, status: Status)
      modifies this`statuses
      ensures View() == SetStatus(old(View()), id, status)
    {
      if id.Some? {
        statuses := statuses[id.value := status];
      }
    }

    method TakeItem() returns (item: Item)
      requires queue != []
      modifies this`queue, this`statuses
      ensures item == old(queue[0]) && View() == Take(old(View()))
    {
      item := queue[0];
      queue := queue[1..];
      Mark(item.id, Taken);
    }

    method EnterItem(item: Item)
      modifies this`messages, this`unfinished, this`entered, this`statuses
      ensures View() == Enter(old(View()), item)
    {
      messages, unfinished := messages + [item], unfinished - 1;
      entered := if item.id.Some? then entered + multiset{item.id.value} else entered;
      Mark(item.id, Injected);
    }

    /** Undoes whatever was appended after `length` and gives the item up. */
    method RollBack(item: Item, length: nat)
      modifies this`messages, this`unfinished, this`statuses
      ensures View() == SetStatus(old(View()).(messages := Prefix(old(messages), length), unfinished := old(unfinished) - 1), item.id, Discarded)
    {
      messages := if length <= |messages| then messages[..length] else messages;
      unfinished := unfinished - 1;
      Mark(item.id, Discarded);
    }

    method ApplySync(commitFails: bool)
      requires queue != []
      modifies this
      ensures View() == ApplyNext(old(View()), commitFails)
    {
      var originalLength := |messages|;
      var item := TakeItem();
      if commitFails {
        messages := messages + [item];
        RollBack(item, originalLength);
      } else {
        EnterItem(item);
      }
    }

    method ApplyAsyncBegin()
      requires queue != []
      modifies this
      ensures View() == BeginApply(old(View()))
    {
      var length := |messages|;
      var item := TakeItem();
      flight := Some(Flight(item, length));
    }

    method ApplyAsyncEnd(outcome: Outcome)
      requires flight.Some?
      modifies this
      ensures View() == FinishApply(old(View()), outcome)
    {
      var item, length := flight.value.item, flight.value.length;
      flight := None;
      if outcome.PreparationFailed? {
        RollBack(item, length);
      } else if outcome.runCancelled || (item.id.Some? && item.id.value in statuses && statuses[item.id.value] == Cancelled) {
        unfinished := unfinished - 1;
        Mark(item.id, Cancelled);
      } else if outcome.commitFails {
        messages := messages + [item];
        RollBack(item, length);
      } else {
        EnterItem(item);
      }
    }
  }

  // ---- Invariant of every interleaving ----

  ghost predicate InQueue(queue: seq<Item>, id: string) {
    exists k :: 0 <= k < |queue| && queue[k].id == Some(id)
  }

  ghost predicate DistinctIds(queue: seq<Item>) {
    forall j, k | 0 <= j < k < |queue| && queue[j].id.Some? :: queue[j].id != queue[k].id
  }

  /** The pending ids are exactly the ids in the queue, each once. */
  ghost predicate QueueIsPending(queue: seq<Item>, statuses: map<string, Status>) {
    && DistinctIds(queue)
    && (forall id | InQueue(queue, id) :: id in statuses && statuses[id] == Pending)
    && (forall id | id in statuses && statuses[id] == Pending :: InQueue(queue, id))
  }

  ghost predicate FlightConsistent(m: Manager) {
    m.flight.Some? ==>
      && m.flight.value.length <= |m.messages|
      && (m.flight.value.item.id.Some? ==>
            var id := m.flight.value.item.id.value;
            && id in m.statuses && m.statuses[id] in {Taken, Cancelled}
            && (id in m.cancelTrue ==> m.statuses[id] == Cancelled))
  }

  /** An id entered the history at most once, and only if its final status says so; a cancelled id never did. */
  ghost predicate HistoryConsistent(statuses: map<string, Status>, entered: multiset<string>, cancelTrue: set<string>) {
    && (forall id | id in entered :: entered[id] == 1 && id in statuses && statuses[id] == Injected)
    && (forall id | id in cancelTrue :: id in statuses && statuses[id] in {Cancelled, Discarded})
  }

  ghost predicate Inv(m: Manager) {
    && QueueIsPending(m.queue, m.statuses)
    && m.statuses.Keys == m.inputs.Keys
    && m.unfinished == |m.queue| + (if m.flight.Some? then 1 else 0)
    && FlightConsistent(m)
    && HistoryConsistent(m.statuses, m.entered, m.cancelTrue)
  }

  // ---- Queue facts ----

  lemma InQueueSplit(queue: seq<Item>, id: string)
    requires queue != []
    ensures InQueue(queue, id) <==> queue[0].id == Some(id) || InQueue(queue[1..], id)
  {
    var t := queue[1..];
    if InQueue(queue, id) && queue[0].id != Some(id) {
      var j :| 0 <= j < |queue| && queue[j].id == Some(id);
      assert t[j - 1].id == Some(id);
    }
    if InQueue(t, id) {
      var j :| 0 <= j < |t| && t[j].id == Some(id);
      assert queue[j + 1].id == Some(id);
    }
  }

  lemma InQueueSnoc(queue: seq<Item>, item: Item, id: string)
    ensures InQueue(queue + [item], id) <==> InQueue(queue, id) || item.id == Some(id)
  {
    var longer := queue + [item];
    if InQueue(queue, id) {
      var j :| 0 <= j < |queue| && queue[j].id == Some(id);
      assert longer[j].id == Some(id);
    }
    assert longer[|queue|] == item;
  }

  lemma RejectInQueue(queue: seq<Item>, id: string, x: string)
    ensures InQueue(Reject(queue, HasId(id)), x) <==> InQueue(queue, x) && x != id
  {
    var kept := Reject(queue, HasId(id));
    if InQueue(kept, x) {
      var k :| 0 <= k < |kept| && kept[k].id == Some(x);
      assert kept[k] in queue;
      var j :| 0 <= j < |queue| && queue[j] == kept[k];
    }
    if InQueue(queue, x) && x != id {
      var k :| 0 <= k < |queue| && queue[k].id == Some(x);
      assert queue[k] in kept;
      var j :| 0 <= j < |kept| && kept[j] == queue[k];
    }
  }

  lemma {:induction false} RejectKeepsDistinct(queue: seq<Item>, id: string)
    requires DistinctIds(queue)
    ensures DistinctIds(Reject(queue, HasId(id)))
  {
    if queue != [] {
      var first, t := queue[0], queue[1..];
      RejectKeepsDistinct(t, id);
      var rest := Reject(t, HasId(id));
      forall k | 0 <= k < |rest| && first.id.Some? ensures first.id != rest[k].id {
        assert rest[k] in t;
        var j :| 0 <= j < |t| && t[j] == rest[k];
        assert queue[j + 1] == rest[k];
      }
      assert Reject(queue, HasId(id)) == (if HasId(id)(first) then [] else [first]) + rest;
    }
  }

  lemma {:induction false} OneMatch(queue: seq<Item>, id: string)
    requires DistinctIds(queue)
    ensures |Filter(queue, HasId(id))| == if InQueue(queue, id) then 1 else 0
    ensures |Reject(queue, HasId(id))| == |queue| - if InQueue(queue, id) then 1 else 0
  {
    if queue != [] {
      var first, t := queue[0], queue[1..];
      OneMatch(t, id);
      InQueueSplit(queue, id);
      if InQueue(t, id) {
        var j :| 0 <= j < |t| && t[j].id == Some(id);
        assert queue[j + 1].id == Some(id);
        assert first.id != Some(id);
      }
    }
  }

  /** Marking an id that is not waiting leaves the queue and the pending ids as they were. */
  lemma RetagKeepsQueue(queue: seq<Item>, statuses: map<string, Status>, id: string, status: Status)
    requires QueueIsPending(queue, statuses) && id in statuses && statuses[id] != Pending && status != Pending
    ensures QueueIsPending(queue, statuses[id := status]) && statuses[id := status].Keys == statuses.Keys
  {
  }

  lemma RetagKeepsHistory(statuses: map<string, Status>, entered: multiset<string>, cancelTrue: set<string>, id: string, status: Status)
    requires HistoryConsistent(statuses, entered, cancelTrue) && id !in entered
    requires id in cancelTrue ==> status in {Cancelled, Discarded}
    ensures HistoryConsistent(statuses[id := status], entered, cancelTrue)
    ensures status == Injected ==> HistoryConsistent(statuses[id := status], entered + multiset{id}, cancelTrue)
    ensures status == Cancelled ==> HistoryConsistent(statuses[id := status], entered, cancelTrue + {id})
  {
  }

  // ---- Every step keeps the invariant ----

  lemma BeginRunKeepsInv(m: Manager)
    requires Inv(m) && m.flight.None?
    ensures Inv(BeginRun(m))
  {
  }

  lemma SubmitKeepsInv(m: Manager, item: Option<Item>)
    requires Inv(m) && (m.flight.Some? ==> !m.runFinished)
    ensures Inv(Submit(m, item).0)
  {
    if item.Some? {
      var s := if m.runFinished then BeginRun(m) else m;
      if m.runFinished { BeginRunKeepsInv(m); }
      if Submit(m, item).1 == Queued {
        EnqueueKeepsInv(s, item.value);
      }
    }
  }

  lemma EnqueueKeepsInv(s: Manager, i: Item)
    requires Inv(s) && !s.runFinished && (i.id.Some? ==> i.id.value !in s.statuses)
    ensures Inv(Submit(s, Some(i)).0)
  {
    var s' := Submit(s, Some(i)).0;
    EnqueueKeepsQueue(s.queue, s.statuses, i);
    assert s'.statuses == if i.id.Some? then s.statuses[i.id.value := Pending] else s.statuses;
  }

  lemma EnqueueKeepsQueue(queue: seq<Item>, statuses: map<string, Status>, i: Item)
    requires QueueIsPending(queue, statuses) && (i.id.Some? ==> i.id.value !in statuses)
    ensures QueueIsPending(queue + [i], if i.id.Some? then statuses[i.id.value := Pending] else statuses)
  {
    forall id ensures InQueue(queue + [i], id) <==> InQueue(queue, id) || i.id == Some(id) {
      InQueueSnoc(queue, i, id);
    }
    forall j, k | 0 <= j < k < |queue + [i]| && (queue + [i])[j].id.Some?
      ensures (queue + [i])[j].id != (queue + [i])[k].id
    {
      if k == |queue| { assert InQueue(queue, queue[j].id.value); }
    }
  }

  /** Taking the first item removes exactly its id from the pending ones. */
  lemma TakeKeepsQueue(queue: seq<Item>, statuses: map<string, Status>, status: Status)
    requires QueueIsPending(queue, statuses) && queue != [] && status != Pending
    ensures queue[0].id.Some? ==> queue[0].id.value in statuses && statuses[queue[0].id.value] == Pending
    ensures QueueIsPending(queue[1..], if queue[0].id.Some? then statuses[queue[0].id.value := status] else statuses)
  {
    var first, t := queue[0], queue[1..];
    if first.id.Some? { assert InQueue(queue, first.id.value); }
    forall id ensures InQueue(t, id) <==> InQueue(queue, id) && first.id != Some(id) {
      InQueueSplit(queue, id);
      if InQueue(t, id) {
        var j :| 0 <= j < |t| && t[j].id == Some(id);
        assert queue[j + 1].id == Some(id);
      }
    }
  }

  lemma TakeKeepsInv(m: Manager)
    requires Inv(m) && m.queue != [] && m.flight.None?
    ensures Inv(Take(m).(unfinished := m.unfinished - 1))
    ensures m.queue[0].id.Some? ==>
              var id := m.queue[0].id.value; id !in m.entered && id !in m.cancelTrue && id in m.statuses
  {
    TakeKeepsQueue(m.queue, m.statuses, Taken);
    if m.queue[0].id.Some? {
      var id := m.queue[0].id.value;
      RetagKeepsHistory(m.statuses, m.entered, m.cancelTrue, id, Taken);
      assert m.statuses[id := Taken].Keys == m.statuses.Keys;
    }
  }

  /** Settling an id that is no longer waiting, and that may enter the history only if it was not cancelled. */
  lemma SettleKeepsInv(m: Manager, id: string, status: Status)
    requires Inv(m) && m.flight.None? && id in m.statuses && m.statuses[id] != Pending && status != Pending
    requires id !in m.entered && (id in m.cancelTrue ==> status in {Cancelled, Discarded})
    ensures Inv(SetStatus(m, Some(id), status))
    ensures status == Injected ==> Inv(SetStatus(m.(entered := m.entered + multiset{id}), Some(id), status))
  {
    RetagKeepsQueue(m.queue, m.statuses, id, status);
    RetagKeepsHistory(m.statuses, m.entered, m.cancelTrue, id, status);
  }

  lemma ApplyKeepsInv(m: Manager, commitFails: bool)
    requires Inv(m) && m.queue != [] && m.flight.None?
    ensures Inv(ApplyNext(m, commitFails))
  {
    var item, t := m.queue[0], Take(m).(unfinished := m.unfinished - 1);
    var u := if commitFails then t else t.(messages := t.messages + [item]);
    TakeKeepsInv(m);
    assert Inv(u);
    if item.id.Some? {
      SettleKeepsInv(u, item.id.value, if commitFails then Discarded else Injected);
    }
  }

  lemma BeginApplyKeepsInv(m: Manager)
    requires Inv(m) && m.queue != [] && m.flight.None?
    ensures Inv(BeginApply(m))
  {
    TakeKeepsInv(m);
  }

  function FinalStatus(m: Manager, outcome: Outcome): Status
    requires m.flight.Some?
  {
    if outcome.PreparationFailed? then Discarded
    else if outcome.runCancelled || CancelledInFlight(m, m.flight.value.item) then Cancelled
    else if outcome.commitFails then Discarded
    else Injected
  }

  /** The history an apply leaves behind: with the item, as it is, or as it was when the apply began. */
  function FinalMessages(m: Manager, outcome: Outcome): seq<Item>
    requires m.flight.Some?
  {
    match FinalStatus(m, outcome)
    case Injected => m.messages + [m.flight.value.item]
    case Discarded => Prefix(m.messages, m.flight.value.length)
    case _ => m.messages
  }

  /** Finishing an apply is exactly settling its id over that history. */
  lemma FinishSettles(m: Manager, outcome: Outcome)
    requires m.flight.Some? && m.flight.value.length <= |m.messages|
    ensures var item, status := m.flight.value.item, FinalStatus(m, outcome);
            var u := m.(flight := None, unfinished := m.unfinished - 1, messages := FinalMessages(m, outcome));
            FinishApply(m, outcome) ==
              if status == Injected then
                SetStatus(u.(entered := if item.id.Some? then m.entered + multiset{item.id.value} else m.entered), item.id, Injected)
              else SetStatus(u, item.id, status)
  {
    assert (m.messages + [m.flight.value.item])[..m.flight.value.length] == m.messages[..m.flight.value.length];
  }

  lemma FinishApplyKeepsInv(m: Manager, outcome: Outcome)
    requires Inv(m) && m.flight.Some?
    ensures Inv(FinishApply(m, outcome))
  {
    var item, status := m.flight.value.item, FinalStatus(m, outcome);
    var u := m.(flight := None, unfinished := m.unfinished - 1, messages := FinalMessages(m, outcome));
    assert Inv(u);
    FinishSettles(m, outcome);
    if item.id.Some? {
      SettleKeepsInv(u, item.id.value, status);
    }
  }

  lemma CancelKeepsInv(m: Manager, id: string)
    requires Inv(m)
    ensures Inv(Cancel(m, id).0)
  {
    if id in m.statuses && m.statuses[id] == Pending {
      CancelRemovesOne(m, id);
      CancelKeepsQueue(m.queue, m.statuses, id);
      RetagKeepsHistory(m.statuses, m.entered, m.cancelTrue, id, Cancelled);
      assert m.statuses[id := Cancelled].Keys == m.statuses.Keys;
    } else if id in m.statuses && m.statuses[id] == Taken {
      RetagKeepsQueue(m.queue, m.statuses, id, Cancelled);
      RetagKeepsHistory(m.statuses, m.entered, m.cancelTrue, id, Cancelled);
    }
  }

  lemma CancelKeepsQueue(queue: seq<Item>, statuses: map<string, Status>, id: string)
    requires QueueIsPending(queue, statuses)
    ensures QueueIsPending(Reject(queue, HasId(id)), statuses[id := Cancelled])
  {
    RejectKeepsDistinct(queue, id);
    forall x ensures InQueue(Reject(queue, HasId(id)), x) <==> InQueue(queue, x) && x != id {
      RejectInQueue(queue, id, x);
    }
  }

  lemma {:induction false} MarkAllExact(statuses: map<string, Status>, items: seq<Item>, status: Status)
    requires forall id | InQueue(items, id) :: id in statuses
    ensures MarkAll(statuses, items, status).Keys == statuses.Keys
    ensures forall id | id in statuses :: MarkAll(statuses, items, status)[id] == if InQueue(items, id) then status else statuses[id]
    decreases |items|
  {
    if items != [] {
      var first, t := items[0], items[1..];
      if first.id.Some? { assert InQueue(items, first.id.value); }
      var rest := if first.id.Some? then statuses[first.id.value := status] else statuses;
      forall id ensures InQueue(items, id) <==> first.id == Some(id) || InQueue(t, id) {
        InQueueSplit(items, id);
      }
      MarkAllExact(rest, t, status);
    }
  }

  lemma DiscardKeepsInv(m: Manager)
    requires Inv(m)
    ensures Inv(DiscardPending(m))
  {
    MarkAllExact(m.statuses, m.queue, Discarded);
  }

  lemma StepKeepsInv(m: Manager, a: Action)
    requires Inv(m) && Enabled(m, a)
    ensures Inv(Step(m, a))
  {
    match a
    case DoSubmit(item) => SubmitKeepsInv(m, item);
    case DoCancel(id) => CancelKeepsInv(m, id);
    case DoDiscard => DiscardKeepsInv(m);
    case DoBeginRun(discard) =>
      DiscardKeepsInv(m);
      BeginRunKeepsInv(if discard then DiscardPending(m) else m);
    case DoEndRun => DiscardKeepsInv(m);
    case DoApply(commitFails) => ApplyKeepsInv(m, commitFails);
    case StartApply => BeginApplyKeepsInv(m);
    case EndApply(outcome) => FinishApplyKeepsInv(m, outcome);
    case OtherMessage(_) =>
  }

  lemma {:induction false} TraceKeepsInv(m: Manager, actions: seq<Action>, m': Manager)
    requires Inv(m) && Trace(m, actions, m')
    ensures Inv(m')
    decreases |actions|
  {
    if actions != [] {
      StepKeepsInv(m, actions[0]);
      TraceKeepsInv(Step(m, actions[0]), actions[1..], m');
    }
  }

  /** In every reachable state the pending ids are the queued ids, both tables have the same keys, and the
      unfinished count is what is queued plus what is being applied. */
  lemma ReachableInv(m: Manager)
    requires Reachable(m)
    ensures Inv(m)
  {
    var actions :| Trace(Initial(), actions, m);
    TraceKeepsInv(Initial(), actions, m);
  }

  // ---- Consequences ----

  /** Within one run an id enters the history at most once, and never after cancel returned true for it. */
  lemma EntersAtMostOnce(m: Manager, id: string)
    requires Reachable(m)
    ensures m.entered[id] <= 1
    ensures id in m.cancelTrue ==> id !in m.entered
  {
    ReachableInv(m);
  }

  /** A step that opens a new run scope, and so forgets what was cancelled in the old one. */
  predicate OpensScope(m: Manager, a: Action) {
    a.DoBeginRun? || (a.DoSubmit? && a.item.Some? && m.runFinished)
  }

  ghost predicate OneScope(m: Manager, actions: seq<Action>)
    decreases |actions|
  {
    actions == [] || (Enabled(m, actions[0]) && !OpensScope(m, actions[0]) && OneScope(Step(m, actions[0]), actions[1..]))
  }

  lemma CancelledStays(m: Manager, a: Action, id: string)
    requires id in m.cancelTrue && Enabled(m, a) && !OpensScope(m, a)
    ensures id in Step(m, a).cancelTrue
  {
  }

  /** Cancelling is decisive: from the moment cancel returns true, no later step of the same run injects the id. */
  lemma {:induction false} CancelIsDecisive(m: Manager, actions: seq<Action>, m': Manager, id: string)
    requires Inv(m) && id in m.cancelTrue && Trace(m, actions, m') && OneScope(m, actions)
    ensures id in m'.cancelTrue && id !in m'.entered
    decreases |actions|
  {
    if actions != [] {
      StepKeepsInv(m, actions[0]);
      CancelledStays(m, actions[0], id);
      CancelIsDecisive(Step(m, actions[0]), actions[1..], m', id);
    }
  }

  /** Cancelling while the preparation is awaited keeps the item out, whatever the preparation returns. */
  lemma CancelDuringPreparation(m: Manager, id: string, outcome: Outcome)
    requires Reachable(m) && m.flight.Some? && m.flight.value.item.id == Some(id)
    requires id in m.statuses && m.statuses[id] == Taken
    ensures Cancel(m, id).1
    ensures var s := FinishApply(Cancel(m, id).0, outcome);
            && s.messages == (if outcome.PreparationFailed? then Prefix(m.messages, m.flight.value.length) else m.messages)
            && s.entered == m.entered && s.statuses[id] in {Cancelled, Discarded}
  {
    ReachableInv(m);
  }

  /** Cancelling a queued id removes the one item with that id, keeps the order of all others, and lowers the
      unfinished count by exactly that item. */
  lemma CancelRemovesOne(m: Manager, id: string)
    requires Inv(m) && id in m.statuses && m.statuses[id] == Pending
    ensures var s := Cancel(m, id).0;
            && Cancel(m, id).1
            && s == m.(queue := Reject(m.queue, HasId(id)), unfinished := m.unfinished - 1,
                       statuses := m.statuses[id := Cancelled], cancelTrue := m.cancelTrue + {id})
            && |s.queue| == |m.queue| - 1
  {
    OneMatch(m.queue, id);
  }

  /** A failed apply gives back the history it started from, which is the present one exactly when nothing else was
      appended meanwhile. */
  lemma FailureRestoresHistory(m: Manager, outcome: Outcome)
    requires Reachable(m) && m.flight.Some?
    requires outcome.PreparationFailed? || (outcome.commitFails && !outcome.runCancelled && !CancelledInFlight(m, m.flight.value.item))
    ensures m.flight.value.length <= |m.messages|
    ensures FinishApply(m, outcome).messages == m.messages[..m.flight.value.length]
    ensures FinishApply(m, outcome).messages == m.messages <==> m.flight.value.length == |m.messages|
  {
    ReachableInv(m);
    assert (m.messages + [m.flight.value.item])[..m.flight.value.length] == m.messages[..m.flight.value.length];
  }

  /** What the run itself appends while the preparation is awaited goes when the preparation fails. */
  lemma OtherMessageIsLost(item: Item, message: Item) returns (m: Manager)
    ensures Reachable(m) && m.flight == Some(Flight(item, 0)) && m.messages == [message]
    ensures FinishApply(m, PreparationFailed).messages == []
  {
    var submitted := Step(Initial(), DoSubmit(Some(item)));
    assert submitted.queue == [item];
    var started := Step(submitted, StartApply);
    m := Step(started, OtherMessage(message));
    var actions := [DoSubmit(Some(item)), StartApply, OtherMessage(message)];
    assert actions[1..] == [StartApply, OtherMessage(message)] && actions[1..][1..] == [OtherMessage(message)];
    assert actions[1..][1..][1..] == [];
    assert Trace(m, [], m);
    assert Trace(started, [OtherMessage(message)], m);
    assert Trace(submitted, [StartApply, OtherMessage(message)], m);
    assert Trace(Initial(), actions, m);
  }

  /** The two tables stay aligned after an apply exactly when the item's id is still known at that point. */
  lemma FinishKeepsTablesAligned(m: Manager, outcome: Outcome)
    requires m.flight.Some? && m.statuses.Keys == m.inputs.Keys
    ensures FinishApply(m, outcome).statuses.Keys == FinishApply(m, outcome).inputs.Keys
            <==> (m.flight.value.item.id.Some? ==> m.flight.value.item.id.value in m.statuses)
  {
    var id := m.flight.value.item.id;
    if id.Some? && id.value !in m.statuses {
      assert id.value in FinishApply(m, outcome).statuses.Keys;
    } else if id.Some? {
      assert m.statuses.Keys + {id.value} == m.statuses.Keys;
    }
  }

  /** Beginning a new run scope while an apply is awaited forgets its id, so finishing it leaves a status without an input. */
  lemma BeginRunDuringApplyMisaligns(m: Manager, id: string, outcome: Outcome)
    requires Reachable(m) && m.flight.Some? && m.flight.value.item.id == Some(id)
    ensures var s := FinishApply(BeginRun(m), outcome); id in s.statuses && id !in s.inputs
  {
    ReachableInv(m);
  }
}
