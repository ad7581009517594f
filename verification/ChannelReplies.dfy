/** What the two sides of an event channel are answered, and when, in every state a run can bring it to. */
module ChannelReplies {
  import opened RunEvents
  import opened Optional

  ghost function TotalSize(queue: seq<Queued>): nat {
    if queue == [] then 0 else TotalSize(queue[..|queue| - 1]) + queue[|queue| - 1].size
  }

  lemma {:induction false} TotalIsBytes(queue: seq<Queued>)
    ensures TotalSize(queue) == Bytes(queue)
    decreases |queue|
  {
    if queue != [] {
      TotalIsBytes(queue[..|queue| - 1]);
      BytesAppend(queue[..|queue| - 1], queue[|queue| - 1]);
      assert queue == queue[..|queue| - 1] + [queue[|queue| - 1]];
    }
  }

  /** Whoever sleeps is woken; whoever does not is left alone. */
  ghost predicate Wakes(s: Channel, s': Channel, publisher: Publisher, getter: Getter) {
    && s'.changed
    && s'.publisher == (if publisher.Blocked? then Blocked(publisher.payload, publisher.size, true) else publisher)
    && s'.getter == (if getter.Waiting? then Waiting(true) else getter)
    && s'.options == s.options
  }

  /** The event is queued last, under the next number, and counts as accepted. */
  ghost predicate Takes(s: Channel, s': Channel, payload: Payload, size: nat) {
    && Wakes(s, s', Idle, s.getter)
    && s'.queue == s.queue + [Queued(Envelope(|s.accepted| + 1, payload), size)]
    && s'.accepted == s.accepted + [payload] && s'.delivered == s.delivered
    && s'.sequence == |s.accepted| + 1 && s'.pendingBytes == TotalSize(s.queue) + size
    && s'.closed == s.closed && s'.interrupted == s.interrupted
  }

  /** There is room for one more event of this size. */
  ghost predicate HasRoom(s: Channel, size: nat) {
    |s.queue| + 1 <= s.options.maxEvents && TotalSize(s.queue) + size <= s.options.maxBytes
  }

  /** An event is taken at once exactly when the channel is open, the event has an encoding and there is room; it is
      refused when the channel is closed or it could never fit, and otherwise it waits. */
  lemma PublishReplies(s: Channel, payload: Payload, encoded: Option<nat>)
    requires Reachable(s) && s.publisher == Idle
    ensures var (s', reply) := Step(s, Publish(payload, encoded));
            if s.closed then reply == Closed && s' == s
            else if encoded == None then reply == Unserializable && s' == s
            else if encoded.value > s.options.maxBytes then reply == TooLarge && s' == s
            else if HasRoom(s, encoded.value) then reply == Accepted && Takes(s, s', payload, encoded.value)
            else reply == Suspended && s' == s.(publisher := Congested(payload, encoded.value))
  {
    ReachableInv(s);
    TotalIsBytes(s.queue);
  }

  /** The turn of the capacity loop: an interrupted or closed channel turns the event away, and an event that still
      finds no room at half full sleeps until it is woken. */
  lemma CheckReplies(s: Channel)
    requires Reachable(s) && (s.publisher.Congested? || s.publisher.Blocked?) && Enabled(s, Check)
    ensures var ((s', reply), p) := (Step(s, Check), s.publisher);
            if s.interrupted then reply == Cancelled && s' == s.(publisher := Idle)
            else if s.closed then reply == Closed && s' == s.(publisher := Idle)
            else if 2 * |s.queue| <= s.options.maxEvents && 2 * TotalSize(s.queue) <= s.options.maxBytes && HasRoom(s, p.size)
            then reply == Ready && s' == s.(publisher := Admitted(p.payload, p.size))
            else reply == Suspended && s' == s.(changed := false, publisher := Blocked(p.payload, p.size, false))
  {
    ReachableInv(s);
    TotalIsBytes(s.queue);
  }

  /** An event let in is taken, unless the channel was closed meanwhile; room has stayed for it. */
  lemma FinishReplies(s: Channel)
    requires Reachable(s) && s.publisher.Admitted?
    ensures var (s', reply) := Step(s, Finish);
            && HasRoom(s, s.publisher.size)
            && if s.closed then reply == Closed && s' == s.(publisher := Idle)
               else reply == Accepted && Takes(s, s', s.publisher.payload, s.publisher.size)
  {
    ReachableInv(s);
    TotalIsBytes(s.queue);
  }

  /** The consumer gets the next accepted event it has not seen; when it has seen them all it gets the end marker from
      a closed channel and sleeps on an open one. */
  lemma GetReplies(s: Channel)
    requires Reachable(s) && Enabled(s, Get)
    ensures var ((s', reply), n) := (Step(s, Get), |s.delivered|);
            && n <= |s.accepted|
            && if n < |s.accepted| then
                 && reply == Delivered(Envelope(n + 1, s.accepted[n]))
                 && Wakes(s, s', s.publisher, Resting)
                 && s'.delivered == s.delivered + [Envelope(n + 1, s.accepted[n])] && s'.accepted == s.accepted
                 && |s.queue| > 0 && s'.queue == s.queue[1..] && s'.pendingBytes == TotalSize(s.queue[1..])
                 && s'.closed == s.closed && s'.interrupted == s.interrupted && s'.sequence == s.sequence
               else if s.closed then reply == End && s' == s.(getter := Resting)
               else reply == Suspended && s' == s.(changed := false, getter := Waiting(false))
  {
    ReachableInv(s);
    DeliveryIsFifo(s);
    if s.queue != [] {
      TotalIsBytes(s.queue[1..]);
      assert Envelopes(s.queue)[0] == s.queue[0].envelope;
    }
  }

  /** Interrupting and closing only raise their flag and wake whoever sleeps; giving up leaves the channel at once. */
  lemma SignalsWake(s: Channel)
    requires Reachable(s)
    ensures var s' := Step(s, Interrupt).0;
            Wakes(s, s', s.publisher, s.getter) &&
            s'.(changed := s.changed, publisher := s.publisher, getter := s.getter) == s.(interrupted := true)
    ensures var s' := Step(s, Close).0;
            Wakes(s, s', s.publisher, s.getter) &&
            s'.(changed := s.changed, publisher := s.publisher, getter := s.getter) == s.(closed := true)
    ensures Enabled(s, AbandonPublish) ==> Step(s, AbandonPublish).0 == s.(publisher := Idle)
    ensures Enabled(s, AbandonGet) ==> Step(s, AbandonGet).0 == s.(getter := Resting)
  {
  }

  /** A side can move exactly when it does not sleep unwoken. */
  lemma CanMoveIff(s: Channel)
    ensures Enabled(s, Check) <==> s.publisher.Congested? || (s.publisher.Blocked? && s.publisher.woken)
    ensures Enabled(s, Get) <==> s.getter == Resting || s.getter == Waiting(true)
    ensures Enabled(s, Finish) <==> s.publisher.Admitted?
    ensures Enabled(s, AbandonPublish) <==> s.publisher != Idle
    ensures Enabled(s, AbandonGet) <==> s.getter != Resting
    ensures forall payload, encoded :: Enabled(s, Publish(payload, encoded)) <==> s.publisher == Idle
  {
  }

  /** A new channel is open: the first event that fits is taken, and whoever waits for events gets it. */
  lemma NewChannelIsOpen(options: Options, payload: Payload, size: nat)
    requires options.Valid()
    ensures var s := Initial(options);
            && Reachable(s) && !s.closed && !s.interrupted && s.publisher == Idle && s.getter == Resting && s.accepted == [] && s.delivered == []
            && (Step(s, Publish(payload, Some(size))).1 == Accepted <==> size <= options.maxBytes)
            && (size <= options.maxBytes ==>
                  Step(Step(s, Publish(payload, Some(size))).0, Get).1 == Delivered(Envelope(1, payload)))
  {
    assert Runs(Initial(options), [], Initial(options));
  }
}
