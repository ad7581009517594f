/** Which registrations a hook bus takes, in which order it then calls them, and how they are undone again. */
module HookRegistry {
  import opened Ordering
  import opened Optional
  import opened HookBus

  /** The order in which faults are looked for. */
  ghost function Rank(fault: Refusal): nat {
    match fault
    case NotRegistering => 1
    case ForeignOwner => 2
    case EmptyName => 3
    case Duplicate => 4
    case WrongEvents => 5
    case WrongTiming => 6
    case NotCallable => 7
  }

  ghost predicate MayHandle(kind: Kind, event: string) {
    match kind
    case BeforeTool => event == "tool.before_execution"
    case ResultText => event == "tool.after_execution"
    case Observer =>
      || event == "run.started" || event == "run.finished" || event == "run.error"
      || event == "step.started" || event == "step.finished"
      || event == "llm.responded" || event == "tool.finished"
  }

  /** What is wrong with a registration, each fault by itself. */
  ghost predicate Has(fault: Refusal, b: Bus, spec: Spec, owner: Owner) {
    match fault
    case NotRegistering => b.state == Ready || b.state == Draining || b.state == Closed
    case ForeignOwner => !(owner.scope == "run" && owner.runId == b.runId)
    case EmptyName => |spec.hookId| == 0 || |owner.pluginId| == 0 || |owner.pluginVersion| == 0 || |owner.source| == 0
    case Duplicate => exists e :: e in b.entries && e.owner.pluginId == owner.pluginId && e.spec.hookId == spec.hookId
    case WrongEvents => |spec.events| == 0 || exists event :: event in spec.events && !MayHandle(spec.kind, event)
    case WrongTiming => spec.timeout.Some? && spec.timeout.value < 1
    case NotCallable => !spec.legacy && !spec.callable
  }

  lemma AllowedEvents(kind: Kind, events: set<string>)
    ensures events <= EventsOf(kind) <==> forall event | event in events :: MayHandle(kind, event)
  {
    forall event ensures event in EventsOf(kind) <==> MayHandle(kind, event) {}
  }

  lemma HasAsTested(b: Bus, spec: Spec, owner: Owner)
    ensures Has(NotRegistering, b, spec, owner) <==> b.state != Registering
    ensures Has(Duplicate, b, spec, owner) <==> exists k :: 0 <= k < |b.entries| && SameHook(b.entries[k], owner, spec)
    ensures Has(WrongEvents, b, spec, owner) <==> spec.events == {} || !(spec.events <= EventsOf(spec.kind))
  {
    AllowedEvents(spec.kind, spec.events);
    assert |spec.events| == 0 <==> spec.events == {};
    if e :| e in b.entries && e.owner.pluginId == owner.pluginId && e.spec.hookId == spec.hookId {
      var k :| 0 <= k < |b.entries| && b.entries[k] == e;
      assert SameHook(b.entries[k], owner, spec);
    }
  }

  lemma RefusedIsFault(b: Bus, spec: Spec, owner: Owner)
    ensures Refuse(b, spec, owner).Some? ==> Has(Refuse(b, spec, owner).value, b, spec, owner)
    ensures forall fault | Has(fault, b, spec, owner) ::
              Refuse(b, spec, owner).Some? && Rank(Refuse(b, spec, owner).value) <= Rank(fault)
  {
    HasAsTested(b, spec, owner);
  }

  lemma RankIsInjective(x: Refusal, y: Refusal)
    ensures Rank(x) == Rank(y) ==> x == y
  {
  }

  /** A registration without a fault is taken with the next number, and one with faults is refused for the first one
      and changes nothing. */
  lemma TakenIffFaultless(b: Bus, spec: Spec, owner: Owner, fault: Refusal)
    ensures var (after, refusal) := Register(b, spec, owner);
            && (refusal == None <==> forall any :: !Has(any, b, spec, owner))
            && (refusal == Some(fault) <==>
                  Has(fault, b, spec, owner) && forall other | Has(other, b, spec, owner) :: Rank(other) >= Rank(fault))
            && (refusal != None ==> after == b)
            && (refusal == None ==>
                  after == Bus(b.runId, b.state, b.entries + [Entry(b.count + 1, spec, owner)], b.index, b.count + 1,
                               b.tokens + [Token(b.count + 1, false)]))
  {
    RefusedIsFault(b, spec, owner);
    if Refuse(b, spec, owner).Some? { RankIsInjective(Refuse(b, spec, owner).value, fault); }
  }

  /** A frozen bus calls, for an event and a kind of handler, exactly the registrations of that kind for that event:
      the lower priority value first, and the earlier registration first among equals. */
  lemma CalledInOrder(b: Bus, event: string, kind: Kind)
    requires Reachable(b) && b.state == Ready
    ensures var list := At(b.index, (event, kind));
            && (forall e :: e in list <==> e in b.entries && event in e.spec.events && e.spec.kind == kind)
            && (forall j, k | 0 <= j < k < |list| ::
                  || list[j].spec.priority < list[k].spec.priority
                  || (list[j].spec.priority == list[k].spec.priority && list[j].order < list[k].order))
  {
    IndexIsExact(b, (event, kind));
  }

  /** Freezing turns a registering bus into one that calls its registrations, once; a new bus is registering. */
  lemma FreezesOnce(b: Bus, index: map<Slot, seq<Entry>>)
    requires Enabled(b, DoFreeze(index))
    ensures var after := Step(b, DoFreeze(index));
            if b.state == Registering then after == Bus(b.runId, Ready, b.entries, index, b.count, b.tokens) else after == b
    ensures Initial(b.runId) == Bus(b.runId, Registering, [], map[], 0, [])
  {
  }

  /** Undoing a registration takes exactly that one out and leaves the others in their order; a bus that is frozen
      refuses, and one that no longer holds the registration has nothing to do. */
  lemma UndoneExactly(b: Bus, k: nat, e: Entry)
    requires Reachable(b) && k < |b.tokens|
    ensures var (after, ok) := Dispose(b, k);
            var order := b.tokens[k].order;
            var held := exists x :: x in b.entries && x.order == order;
            && (ok <==> b.tokens[k].disposed || !held || b.state == Registering || b.state == Draining)
            && (!ok || b.tokens[k].disposed ==> after == b)
            && (ok && !b.tokens[k].disposed ==>
                  && (e in after.entries <==> e in b.entries && e.order != order)
                  && (forall i, j | 0 <= i < j < |after.entries| :: after.entries[i].order < after.entries[j].order)
                  && after == b.(entries := after.entries, index := if held then map[] else b.index,
                                 tokens := b.tokens[k := Token(order, true)]))
  {
    var order := b.tokens[k].order;
    ReachableInv(b);
    if !b.tokens[k].disposed {
      if x :| x in b.entries && x.order == order {
        var i :| 0 <= i < |b.entries| && b.entries[i] == x;
        assert Registered(b, order);
      }
      DisposeKeepsInv(b, k);
      if !Registered(b, order) {
        assert forall x | x in b.entries :: x.order != order;
      }
    }
  }
}
