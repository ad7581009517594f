/** The bounded event channel of one run: one producer side behind a lock, one consumer, one shared wake-up event.
    Every method below is one stretch of code between two suspension points of the coroutines. */
module RunEvents {
  import opened Optional

  type Payload = string

  datatype Options = Options(maxEvents: nat, maxBytes: nat) {
    ghost predicate Valid() { maxEvents >= 1 && maxBytes >= 1 }
  }
  datatype Envelope = Envelope(sequence: nat, payload: Payload)
  datatype Queued = Queued(envelope: Envelope, size: nat)

  /** Where the coroutine holding the publish lock is suspended. A waiter is `woken` by the first
      `set` after it registered; a later `clear` does not take that back. */
  datatype Publisher =
    | Idle
    | Congested(payload: Payload, size: nat)
    | Blocked(payload: Payload, size: nat, woken: bool)
    | Admitted(payload: Payload, size: nat)

  datatype Getter = Resting | Waiting(woken: bool)

  datatype Reply =
    | Accepted
    | Suspended
    | Closed
    | Unserializable
    | TooLarge
    | Cancelled
    | Ready
    | Delivered(envelope: Envelope)
    | End
    | Done

  datatype Channel = Channel(
    options: Options,
    queue: seq<Queued>,
    closed: bool,
    interrupted: bool,
    sequence: nat,
    pendingBytes: int,
    changed: bool,
    publisher: Publisher,
    getter: Getter,
    accepted: seq<Payload>,
    delivered: seq<Envelope>)

  // ---- Transitions ----

  function Initial(options: Options): Channel {
    Channel(options, [], false, false, 0, 0, false, Idle, Resting, [], [])
  }

  /** `Event.set`: raises the flag and wakes every registered waiter. */
  function Wake(s: Channel): Channel {
    s.(changed := true,
       publisher := if s.publisher.Blocked? then s.publisher.(woken := true) else s.publisher,
       getter := if s.getter.Waiting? then Waiting(true) else s.getter)
  }

  predicate Full(s: Channel, size: nat) {
    |s.queue| >= s.options.maxEvents || s.pendingBytes + size > s.options.maxBytes
  }

  /** Capacity for a congested publisher: both counters at most half, and the event itself fits. */
  predicate Capacity(s: Channel, size: nat) {
    && |s.queue| <= s.options.maxEvents / 2
    && s.pendingBytes <= s.options.maxBytes / 2
    && |s.queue| < s.options.maxEvents
    && s.pendingBytes + size <= s.options.maxBytes
  }

  function Append(s: Channel, payload: Payload, size: nat): Channel {
    Wake(s.(queue := s.queue + [Queued(Envelope(s.sequence + 1, payload), size)],
            pendingBytes := s.pendingBytes + size,
            sequence := s.sequence + 1,
            publisher := Idle,
            accepted := s.accepted + [payload]))
  }

  /** `publish` up to its first suspension; `encoded` is the serialized size, absent when serializing fails. */
  function BeginPublish(s: Channel, payload: Payload, encoded: Option<nat>): (Channel, Reply) {
    if s.closed then (s, Closed)
    else if encoded.None? then (s, Unserializable)
    else if encoded.value > s.options.maxBytes then (s, TooLarge)
    else if Full(s, encoded.value) then (s.(publisher := Congested(payload, encoded.value)), Suspended)
    else (Append(s, payload, encoded.value), Accepted)
  }

  /** One turn of the capacity loop. */
  function CheckCapacity(s: Channel): (Channel, Reply)
    requires s.publisher.Congested? || s.publisher.Blocked?
  {
    var p := s.publisher;
    if s.interrupted then (s.(publisher := Idle), Cancelled)
    else if s.closed then (s.(publisher := Idle), Closed)
    else if Capacity(s, p.size) then (s.(publisher := Admitted(p.payload, p.size)), Ready)
    else (s.(changed := false, publisher := Blocked(p.payload, p.size, false)), Suspended)
  }

  /** The rest of `publish` once the wait for capacity has returned. */
  function FinishPublish(s: Channel): (Channel, Reply)
    requires s.publisher.Admitted?
  {
    if s.closed then (s.(publisher := Idle), Closed)
    else (Append(s, s.publisher.payload, s.publisher.size), Accepted)
  }

  /** One turn of `get`'s loop. */
  function TakeNext(s: Channel): (Channel, Reply) {
    if s.queue != [] then
      (Wake(s.(queue := s.queue[1..],
               pendingBytes := s.pendingBytes - s.queue[0].size,
               getter := Resting,
               delivered := s.delivered + [s.queue[0].envelope])),
       Delivered(s.queue[0].envelope))
    else if s.closed then (s.(getter := Resting), End)
    else (s.(changed := false, getter := Waiting(false)), Suspended)
  }

  datatype Action =
    | Publish(payload: Payload, encoded: Option<nat>)
    | Check
    | Finish
    | AbandonPublish   // the congestion timeout, or cancellation of the publishing task
    | Get
    | AbandonGet       // cancellation of the consuming task
    | Interrupt
    | Close

  predicate Enabled(s: Channel, a: Action) {
    match a
    case Publish(_, _) => s.publisher.Idle?
    case Check => s.publisher.Congested? || (s.publisher.Blocked? && s.publisher.woken)
    case Finish => s.publisher.Admitted?
    case AbandonPublish => !s.publisher.Idle?
    case Get => s.getter.Resting? || s.getter.woken
    case AbandonGet => s.getter.Waiting?
    case Interrupt => true
    case Close => true
  }

  function Step(s: Channel, a: Action): (Channel, Reply)
    requires Enabled(s, a)
  {
    match a
    case Publish(payload, encoded) => BeginPublish(s, payload, encoded)
    case Check => CheckCapacity(s)
    case Finish => FinishPublish(s)
    case AbandonPublish => (s.(publisher := Idle), Done)
    case Get => TakeNext(s)
    case AbandonGet => (s.(getter := Resting), Done)
    case Interrupt => (Wake(s.(interrupted := true)), Done)
    case Close => (Wake(s.(closed := true)), Done)
  }

  /** `s'` is reached from `s` by the actions, in this order, each when it could run. */
  ghost predicate Runs(s: Channel, actions: seq<Action>, s': Channel)
    decreases |actions|
  {
    if actions == [] then s == s'
    else Enabled(s, actions[0]) && Runs(Step(s, actions[0]).0, actions[1..], s')
  }

  ghost predicate Reachable(s: Channel) {
    exists options: Options, actions :: options.Valid() && Runs(Initial(options), actions, s)
  }

  // ---- The class ----

  class RunEventChannel {
    const options: Options
    var queue: seq<Queued>
    var closed: bool
    var interrupted: bool
    var sequence: nat
    var pendingBytes: int
    var changed: bool
    var publisher: Publisher
    var getter: Getter
    ghost var accepted: seq<Payload>
    ghost var delivered: seq<Envelope>

    ghost function View(): Channel
      reads this
    {
      Channel(options, queue, closed, interrupted, sequence, pendingBytes, changed, publisher, getter, accepted, delivered)
    }

    constructor (options: Options)
      ensures View() == Initial(options)
    {
      this.options := options;
      queue, closed, interrupted, sequence, pendingBytes, changed := [], false, false, 0, 0, false;
      publisher, getter, accepted, delivered := Idle, Resting, [], [];
    }

    method SetChanged()
      modifies this
      ensures View() == Wake(old(View()))
    {
      changed := true;
      if publisher.Blocked? {
        publisher := publisher.(woken := true);
      }
      if getter.Waiting? {
        getter := Waiting(true);
      }
    }

    method Enqueue(payload: Payload, size: nat)
      modifies this
      ensures View() == Append(old(View()), payload, size)
    {
      queue := queue + [Queued(Envelope(sequence + 1, payload), size)];
      pendingBytes := pendingBytes + size;
      sequence := sequence + 1;
      publisher := Idle;
      accepted := accepted + [payload];
      SetChanged();
    }

    method Publish(payload: Payload, encoded: Option<nat>) returns (reply: Reply)
      requires publisher.Idle?
      modifies this
      ensures (View(), reply) == BeginPublish(old(View()), payload, encoded)
    {
      if closed { return Closed; }
      if encoded.None? { return Unserializable; }
      var size := encoded.value;
      if size > options.maxBytes { return TooLarge; }
      if |queue| >= options.maxEvents || pendingBytes + size > options.maxBytes {
        publisher := Congested(payload, size);
        return Suspended;
      }
      Enqueue(payload, size);
      reply := Accepted;
    }

    method WaitForCapacity() returns (reply: Reply)
      requires publisher.Congested? || publisher.Blocked?
      modifies this
      ensures (View(), reply) == CheckCapacity(old(View()))
    {
      var payload, size := publisher.payload, publisher.size;
      if interrupted {
        publisher := Idle;
        return Cancelled;
      }
      if closed {
        publisher := Idle;
        return Closed;
      }
      if |queue| <= options.maxEvents / 2 && pendingBytes <= options.maxBytes / 2
         && |queue| < options.maxEvents && pendingBytes + size <= options.maxBytes {
        publisher := Admitted(payload, size);
        return Ready;
      }
      changed := false;
      publisher := Blocked(payload, size, false);
      reply := Suspended;
    }

    method ResumePublish() returns (reply: Reply)
      requires publisher.Admitted?
      modifies this
      ensures (View(), reply) == FinishPublish(old(View()))
    {
      if closed {
        publisher := Idle;
        return Closed;
      }
      Enqueue(publisher.payload, publisher.size);
      reply := Accepted;
    }

    method GetNext() returns (reply: Reply)
      modifies this
      ensures (View(), reply) == TakeNext(old(View()))
    {
      if queue == [] {
        if closed {
          getter := Resting;
          return End;
        }
        changed := false;
        getter := Waiting(false);
        return Suspended;
      }
      var item := queue[0];
      queue := queue[1..];
      pendingBytes := pendingBytes - item.size;
      getter := Resting;
      delivered := delivered + [item.envelope];
      SetChanged();
      reply := Delivered(item.envelope);
    }

    method RequestInterrupt()
      modifies this
      ensures View() == Step(old(View()), Interrupt).0
    {
      interrupted := true;
      SetChanged();
    }

    method CloseChannel()
      modifies this
      ensures View() == Step(old(View()), Close).0
    {
      closed := true;
      SetChanged();
    }
  }

  // ---- Invariant of every interleaving ----

  function Bytes(queue: seq<Queued>): nat {
    if queue == [] then 0 else queue[0].size + Bytes(queue[1..])
  }

  function Envelopes(queue: seq<Queued>): (es: seq<Envelope>)
    ensures |es| == |queue| && forall k | 0 <= k < |queue| :: es[k] == queue[k].envelope
  {
    seq(|queue|, k requires 0 <= k < |queue| => queue[k].envelope)
  }

  /** The accepted payloads, numbered from 1 without gaps. */
  function Numbered(payloads: seq<Payload>): (es: seq<Envelope>)
    ensures |es| == |payloads| && forall k | 0 <= k < |es| :: es[k] == Envelope(k + 1, payloads[k])
  {
    seq(|payloads|, k requires 0 <= k < |payloads| => Envelope(k + 1, payloads[k]))
  }

  ghost predicate Bounded(s: Channel) {
    && s.options.Valid()
    && |s.queue| <= s.options.maxEvents
    && s.pendingBytes == Bytes(s.queue)
    && s.pendingBytes <= s.options.maxBytes
    && (!s.publisher.Idle? ==> s.publisher.size <= s.options.maxBytes)
    && (s.publisher.Admitted? ==> Capacity(s, s.publisher.size))
  }

  ghost predicate Ordered(s: Channel) {
    && s.delivered + Envelopes(s.queue) == Numbered(s.accepted)
    && s.sequence == |s.accepted|
  }

  /** A waiter that has not been woken has nothing to do. */
  ghost predicate NoLostWakeup(s: Channel) {
    && (s.getter.Waiting? && !s.getter.woken ==> s.queue == [] && !s.closed)
    && (s.publisher.Blocked? && !s.publisher.woken ==> !Capacity(s, s.publisher.size) && !s.interrupted && !s.closed)
  }

  ghost predicate Inv(s: Channel) {
    Bounded(s) && Ordered(s) && NoLostWakeup(s)
  }

  lemma {:induction false} BytesAppend(queue: seq<Queued>, item: Queued)
    ensures Bytes(queue + [item]) == Bytes(queue) + item.size
  {
    if queue != [] {
      assert (queue + [item])[1..] == queue[1..] + [item];
      BytesAppend(queue[1..], item);
    } else {
      assert queue + [item] == [item] && [item][1..] == [];
    }
  }

  lemma AppendKeepsInv(s: Channel, payload: Payload, size: nat)
    requires Bounded(s) && Ordered(s) && !s.closed && !Full(s, size)
    requires s.publisher.Idle? || s.publisher.Admitted?
    requires NoLostWakeup(s)
    ensures Inv(Append(s, payload, size))
  {
    var item := Queued(Envelope(s.sequence + 1, payload), size);
    BytesAppend(s.queue, item);
    assert Envelopes(s.queue + [item]) == Envelopes(s.queue) + [item.envelope];
    assert Numbered(s.accepted + [payload]) == Numbered(s.accepted) + [item.envelope];
  }

  lemma TakeKeepsOrder(s: Channel)
    requires Ordered(s) && s.queue != []
    ensures Ordered(TakeNext(s).0)
  {
    var head, rest := [s.queue[0].envelope], Envelopes(s.queue[1..]);
    assert Envelopes(s.queue) == head + rest;
    assert s.delivered + (head + rest) == (s.delivered + head) + rest;
  }

  lemma TakeKeepsInv(s: Channel)
    requires Inv(s)
    ensures Inv(TakeNext(s).0)
  {
    if s.queue != [] {
      TakeKeepsOrder(s);
      assert Bounded(TakeNext(s).0);
    }
  }

  lemma WakingKeepsInv(s: Channel, s': Channel)
    requires Inv(s) && s' in {s.(interrupted := true), s.(closed := true)}
    ensures Inv(Wake(s'))
  {
  }

  lemma PublishKeepsInv(s: Channel, payload: Payload, encoded: Option<nat>)
    requires Inv(s) && s.publisher.Idle?
    ensures Inv(BeginPublish(s, payload, encoded).0)
  {
    if BeginPublish(s, payload, encoded).1 == Accepted { AppendKeepsInv(s, payload, encoded.value); }
  }

  lemma FinishKeepsInv(s: Channel)
    requires Inv(s) && s.publisher.Admitted?
    ensures Inv(FinishPublish(s).0)
  {
    if !s.closed { AppendKeepsInv(s, s.publisher.payload, s.publisher.size); }
  }

  lemma StepKeepsInv(s: Channel, a: Action)
    requires Inv(s) && Enabled(s, a)
    ensures Inv(Step(s, a).0)
  {
    match a
    case Publish(payload, encoded) => PublishKeepsInv(s, payload, encoded);
    case Finish => FinishKeepsInv(s);
    case Get => TakeKeepsInv(s);
    case Interrupt => WakingKeepsInv(s, s.(interrupted := true));
    case Close => WakingKeepsInv(s, s.(closed := true));
    case _ =>
  }

  lemma {:induction false} RunsKeepInv(s: Channel, actions: seq<Action>, s': Channel)
    requires Inv(s) && Runs(s, actions, s')
    ensures Inv(s')
    decreases |actions|
  {
    if actions != [] {
      StepKeepsInv(s, actions[0]);
      RunsKeepInv(Step(s, actions[0]).0, actions[1..], s');
    }
  }

  /** Every interleaving keeps both bounds, the numbering, and the absence of lost wake-ups. */
  lemma ReachableInv(s: Channel)
    requires Reachable(s)
    ensures Inv(s)
  {
    var options: Options, actions :| options.Valid() && Runs(Initial(options), actions, s);
    RunsKeepInv(Initial(options), actions, s);
  }

  // ---- Consequences ----

  /** The half-full hysteresis cannot deadlock: publisher and getter are never both asleep. */
  lemma NeverBothBlocked(s: Channel)
    requires Reachable(s)
    ensures !(s.publisher.Blocked? && !s.publisher.woken && s.getter.Waiting? && !s.getter.woken)
  {
    ReachableInv(s);
  }

  function Drain(s: Channel, k: nat): Channel
    decreases k
  {
    if k == 0 then s else Drain(TakeNext(s).0, k - 1)
  }

  lemma {:induction false} DrainEmpties(s: Channel, k: nat)
    requires Inv(s) && k <= |s.queue| && (s.getter.Resting? || s.getter.woken)
    ensures var s' := Drain(s, k);
            && Inv(s')
            && s'.queue == s.queue[k..]
            && s'.interrupted == s.interrupted && s'.closed == s.closed && s'.options == s.options
            && (k > 0 && s.publisher.Blocked? ==> s'.publisher == s.publisher.(woken := true))
            && (k == 0 || !s.publisher.Blocked? ==> s'.publisher == s.publisher)
            && (k > 0 ==> s'.getter.Resting?)
    decreases k
  {
    if k > 0 {
      TakeKeepsInv(s);
      DrainEmpties(TakeNext(s).0, k - 1);
    }
  }

  /** A blocked publisher is always let in by consuming what is queued: it is woken and its next check admits it. */
  lemma DrainingAdmits(s: Channel)
    requires Reachable(s) && s.publisher.Blocked? && !s.interrupted && !s.closed
    ensures var s' := Drain(s, |s.queue|);
            && (|s.queue| > 0 ==> Enabled(s, Get))
            && s'.publisher == s.publisher.(woken := true)
            && CheckCapacity(s').1 == Ready
            && CheckCapacity(s').0.publisher == Admitted(s.publisher.payload, s.publisher.size)
  {
    ReachableInv(s);
    if |s.queue| > 0 {
      DrainEmpties(s, |s.queue|);
    } else {
      assert Capacity(s, s.publisher.size);
    }
  }

  /** The consumer has seen a prefix of the accepted events, in order, and what is missing is exactly the queue. */
  lemma DeliveryIsFifo(s: Channel)
    requires Reachable(s)
    ensures s.delivered <= Numbered(s.accepted)
    ensures Envelopes(s.queue) == Numbered(s.accepted)[|s.delivered|..]
  {
    ReachableInv(s);
    assert Numbered(s.accepted)[..|s.delivered|] == s.delivered;
  }

  /** The end marker is returned only after close, once everything accepted has been delivered. */
  lemma EndMeansDrained(s: Channel)
    requires Reachable(s) && Enabled(s, Get) && Step(s, Get).1 == End
    ensures s.closed && s.delivered == Numbered(s.accepted)
  {
    ReachableInv(s);
  }

  /** An event that had to wait enters the queue only below the low watermark, whatever ran in between. */
  lemma LowWatermark(s: Channel)
    requires Reachable(s) && s.publisher.Admitted?
    ensures FinishPublish(s).1 == Accepted <==> !s.closed
    ensures |s.queue| <= s.options.maxEvents / 2 && s.pendingBytes <= s.options.maxBytes / 2
    ensures FinishPublish(s).1 == Accepted ==> FinishPublish(s).0.pendingBytes <= s.options.maxBytes
  {
    ReachableInv(s);
  }
}
