/** The hook bus of a run: registration, the frozen dispatch index, and the two decision chains around a tool call. */
module HookBus {
  import opened Ordering
  import opened Optional

  datatype Kind = Observer | BeforeTool | ResultText

  /** `callable` says whether the handler, and the matcher if there is one, can be called. */
  datatype Spec = Spec(
    hookId: string, events: set<string>, kind: Kind, priority: int, timeout: Option<int>, legacy: bool, callable: bool)

  datatype Owner = Owner(scope: string, runId: string, pluginId: string, pluginVersion: string, source: string)

  /** A registration; `order` is the running number it got, which also identifies it. */
  datatype Entry = Entry(order: nat, spec: Spec, owner: Owner)

  datatype Token = Token(order: nat, disposed: bool)

  datatype State = Registering | Ready | Draining | Closed

  type Slot = (string, Kind)

  datatype Bus = Bus(
    runId: string, state: State, entries: seq<Entry>, index: map<Slot, seq<Entry>>, count: nat, tokens: seq<Token>)

  datatype Refusal = NotRegistering | ForeignOwner | EmptyName | Duplicate | WrongEvents | WrongTiming | NotCallable

  const BEFORE := "tool.before_execution"
  const AFTER := "tool.after_execution"
  const OBSERVED := {"run.started", "step.started", "llm.responded", "tool.finished", "step.finished", "run.error", "run.finished"}

  // ---- Registration ----

  function EventsOf(kind: Kind): set<string> {
    match kind
    case Observer => OBSERVED
    case BeforeTool => {BEFORE}
    case ResultText => {AFTER}
  }

  predicate SameHook(e: Entry, owner: Owner, spec: Spec) {
    e.owner.pluginId == owner.pluginId && e.spec.hookId == spec.hookId
  }

  function Refuse(b: Bus, spec: Spec, owner: Owner): Option<Refusal> {
    if b.state != Registering then Some(NotRegistering)
    else if owner.scope != "run" || owner.runId != b.runId then Some(ForeignOwner)
    else if spec.hookId == "" || owner.pluginId == "" || owner.pluginVersion == "" || owner.source == "" then Some(EmptyName)
    else if exists k | 0 <= k < |b.entries| :: SameHook(b.entries[k], owner, spec) then Some(Duplicate)
    else if spec.events == {} || !(spec.events <= EventsOf(spec.kind)) then Some(WrongEvents)
    else if spec.timeout.Some? && spec.timeout.value <= 0 then Some(WrongTiming)
    else if !spec.legacy && !spec.callable then Some(NotCallable)
    else None
  }

  function Register(b: Bus, spec: Spec, owner: Owner): (Bus, Option<Refusal>) {
    var refusal := Refuse(b, spec, owner);
    if refusal.Some? then (b, refusal)
    else
      var n := b.count + 1;
      (b.(count := n, entries := b.entries + [Entry(n, spec, owner)], tokens := b.tokens + [Token(n, false)]), None)
  }

  predicate Earlier(x: Entry, y: Entry) {
    x.spec.priority < y.spec.priority || (x.spec.priority == y.spec.priority && x.order <= y.order)
  }

  function Handles(slot: Slot): Entry -> bool {
    (e: Entry) => slot.0 in e.spec.events && slot.1 == e.spec.kind
  }

  function At(index: map<Slot, seq<Entry>>, slot: Slot): seq<Entry> {
    if slot in index then index[slot] else []
  }

  /** The index lists, for every event and kind, the matching entries in dispatch order. */
  ghost predicate IsIndex(index: map<Slot, seq<Entry>>, entries: seq<Entry>) {
    IsIndexOf(index, SortBy(entries, Earlier))
  }

  ghost predicate IsIndexOf(index: map<Slot, seq<Entry>>, ordered: seq<Entry>) {
    forall slot :: At(index, slot) == Filter(ordered, Handles(slot))
  }

  lemma IndexOneMore(before: map<Slot, seq<Entry>>, after: map<Slot, seq<Entry>>, ordered: seq<Entry>, e: Entry)
    requires IsIndexOf(before, ordered)
    requires forall slot :: At(after, slot) == At(before, slot) + (if Handles(slot)(e) then [e] else [])
    ensures IsIndexOf(after, ordered + [e])
  {
    forall slot ensures At(after, slot) == Filter(ordered + [e], Handles(slot)) {
      FilterSnoc(ordered, e, Handles(slot));
    }
  }

  function HasOrder(order: nat): Entry -> bool {
    (e: Entry) => e.order == order
  }

  predicate Registered(b: Bus, order: nat) {
    exists k | 0 <= k < |b.entries| :: b.entries[k].order == order
  }

  /** Undoing a registration; refused while the bus is dispatching. */
  function Unregister(b: Bus, order: nat): (Bus, bool) {
    if !Registered(b, order) then (b, true)
    else if b.state == Ready || b.state == Closed then (b, false)
    else (b.(entries := Reject(b.entries, HasOrder(order)), index := map[]), true)
  }

  function Dispose(b: Bus, k: nat): (Bus, bool)
    requires k < |b.tokens|
    ensures |Dispose(b, k).0.tokens| == |b.tokens|
  {
    if b.tokens[k].disposed then (b, true)
    else
      var (b', ok) := Unregister(b, b.tokens[k].order);
      if ok then (b'.(tokens := b.tokens[k := Token(b.tokens[k].order, true)]), true) else (b, false)
  }

  /** Disposing the first `n` tokens, last one first. */
  function DisposeDown(b: Bus, n: nat): Bus
    requires n <= |b.tokens|
    decreases n
  {
    if n == 0 then b else DisposeDown(Dispose(b, n - 1).0, n - 1)
  }

  function Close(b: Bus): Bus {
    if b.state == Closed then b else DisposeDown(b.(state := Draining), |b.tokens|).(tokens := [], state := Closed)
  }

  // ---- Decision chains ----

  /** How a call of a handler ends; an interruption is a cancellation or a failure to persist, and ends the chain. */
  datatype Outcome<T> = Skipped | Failed(error: string) | Completed(value: T) | Interrupted

  datatype BeforeDecision = Allow | Modify(arguments: string) | Deny(reason: string, code: string)

  datatype BeforeResolution =
    | Allowed(arguments: string)
    | Denied(reason: string, code: string, hookId: string, source: string)
    | BeforeRaised

  datatype Text = Text(content: string, error: Option<string>)

  datatype TextDecision = Keep | Replace(text: Text) | Suppress(reason: string)

  datatype TextResolution =
    | Delivered(text: Text, modified: bool)
    | Suppressed(text: Text, reason: string, hookId: string, source: string)
    | TextRaised

  /** A legacy callback is handed the live arguments: how its call ends, and the arguments as it leaves them. */
  datatype LegacyCall = LegacyCall(outcome: Outcome<Option<string>>, left: string)

  /** What the handlers do with the current arguments or text. */
  datatype Handlers = Handlers(
    legacyBefore: (nat, string) -> LegacyCall,
    before: (nat, string) -> Outcome<BeforeDecision>,
    legacyText: (nat, Text) -> Outcome<Option<Text>>,
    text: (nat, Text) -> Outcome<TextDecision>)

  const SUPPRESSED := "\U{5de5}\U{5177}\U{5df2}\U{6267}\U{884c}\U{ff0c}\U{7ed3}\U{679c}\U{6587}\U{672c}\U{5df2}\U{88ab} Hook \U{6291}\U{5236}\U{3002}"
  const FAILED_CODE := "HOOK_EXECUTION_FAILED"

  /** What one handler makes of the arguments: it passes some on, or ends the chain. */
  function BeforeStep(e: Entry, arguments: string, hs: Handlers): BeforeResolution {
    if e.spec.legacy then
      var call := hs.legacyBefore(e.order, arguments);
      match call.outcome
      case Interrupted => BeforeRaised
      case Completed(changed) => Allowed(if changed.Some? then changed.value else call.left)
      case _ => Allowed(call.left)
    else
      match hs.before(e.order, arguments)
      case Interrupted => BeforeRaised
      case Skipped => Allowed(arguments)
      case Failed(error) => Denied("Hook " + e.spec.hookId + " \U{6267}\U{884c}\U{5931}\U{8d25}\U{ff1a}" + error, FAILED_CODE, e.spec.hookId, e.owner.source)
      case Completed(decision) =>
        match decision
        case Allow => Allowed(arguments)
        case Modify(changed) => Allowed(changed)
        case Deny(reason, code) => Denied(reason, code, e.spec.hookId, e.owner.source)
  }

  /** The flags of a finished tool call that the text chain looks at. */
  datatype Flags = Flags(executed: bool, visible: bool, success: bool)

  predicate Listens(e: Entry, flags: Flags) {
    if e.spec.legacy then flags.visible else flags.executed
  }

  function SuppressedText(flags: Flags): Text {
    if flags.success then Text(SUPPRESSED, None) else Text(SUPPRESSED, Some(SUPPRESSED))
  }

  function TextStep(e: Entry, text: Text, modified: bool, flags: Flags, hs: Handlers): TextResolution {
    if !Listens(e, flags) then Delivered(text, modified)
    else if e.spec.legacy then
      match hs.legacyText(e.order, text)
      case Interrupted => TextRaised
      case Completed(changed) => Delivered(if changed.Some? then changed.value else text, modified)
      case _ => Delivered(text, modified)
    else
      match hs.text(e.order, text)
      case Interrupted => TextRaised
      case Skipped => Delivered(text, modified)
      case Failed(error) =>
        Suppressed(SuppressedText(flags), "Hook " + e.spec.hookId + " \U{6267}\U{884c}\U{5931}\U{8d25}\U{ff1a}" + error, e.spec.hookId, e.owner.source)
      case Completed(decision) =>
        match decision
        case Keep => Delivered(text, modified)
        case Replace(changed) => Delivered(changed, true)
        case Suppress(reason) => Suppressed(SuppressedText(flags), reason, e.spec.hookId, e.owner.source)
  }

  /** The chain over the handlers in order: its result, and which handlers were called. */
  function BeforeChain(es: seq<Entry>, arguments: string, hs: Handlers): (BeforeResolution, seq<nat>)
    decreases |es|
  {
    if es == [] then (Allowed(arguments), [])
    else
      var r := BeforeStep(es[0], arguments, hs);
      if !r.Allowed? then (r, [es[0].order])
      else
        var (result, called) := BeforeChain(es[1..], r.arguments, hs);
        (result, [es[0].order] + called)
  }

  function TextChain(es: seq<Entry>, text: Text, modified: bool, flags: Flags, hs: Handlers): (TextResolution, seq<nat>)
    decreases |es|
  {
    if es == [] then (Delivered(text, modified), [])
    else
      var r, mine := TextStep(es[0], text, modified, flags, hs), if Listens(es[0], flags) then [es[0].order] else [];
      if !r.Delivered? then (r, mine)
      else
        var (result, called) := TextChain(es[1..], r.text, r.modified, flags, hs);
        (result, mine + called)
  }

  /** What a dispatch is asked for. */
  datatype Request = Request(runId: string, sessionId: string, event: string)

  // ---- The class ----

  class HookBus {
    const runId: string
    const sessionId: string
    var state: State
    var entries: seq<Entry>
    var index: map<Slot, seq<Entry>>
    var count: nat
    var tokens: seq<Token>

    ghost function View(): Bus
      reads this
    {
      Bus(runId, state, entries, index, count, tokens)
    }

    constructor (runId: string, sessionId: string)
      ensures View() == Initial(runId) && this.sessionId == sessionId
    {
      this.runId, this.sessionId := runId, sessionId;
      state, entries, index, count, tokens := Registering, [], map[], 0, [];
    }

    method RegisterHook(spec: Spec, owner: Owner) returns (refusal: Option<Refusal>)
      modifies this
      ensures (View(), refusal) == Register(old(View()), spec, owner)
    {
      refusal := Refuse(Bus(runId, state, entries, index, count, tokens), spec, owner);
      if refusal.Some? {
        return;
      }
      count := count + 1;
      entries := entries + [Entry(count, spec, owner)];
      tokens := tokens + [Token(count, false)];
    }

    /** Builds the dispatch index once; freezing again changes nothing. */
    method Freeze() returns (ok: bool)
      modifies this`index, this`state
      ensures ok == (old(state) == Registering || old(state) == Ready)
      ensures old(state) != Registering ==> View() == old(View())
      ensures old(state) == Registering ==> state == Ready && IsIndex(index, entries)
    {
      if state == Ready {
        return true;
      }
      if state != Registering {
        return false;
      }
      var ordered := SortBy(entries, Earlier);
      index := map[];
      for k := 0 to |ordered|
        invariant state == Registering && IsIndexOf(index, ordered[..k])
      {
        ghost var before := index;
        IndexEntry(ordered[k]);
        IndexOneMore(before, index, ordered[..k], ordered[k]);
        assert ordered[..k + 1] == ordered[..k] + [ordered[k]];
      }
      assert ordered[..|ordered|] == ordered;
      state := Ready;
      ok := true;
    }

    /** Appends the entry to the list of each of its events. */
    method IndexEntry(e: Entry)
      modifies this`index
      ensures forall slot :: At(index, slot) == At(old(index), slot) + (if Handles(slot)(e) then [e] else [])
    {
      var rest := e.spec.events;
      while rest != {}
        invariant rest <= e.spec.events
        invariant forall slot: Slot ::
          At(index, slot) == At(old(index), slot) + (if slot.1 == e.spec.kind && slot.0 in e.spec.events - rest then [e] else [])
        decreases |rest|
      {
        var event :| event in rest;
        rest := rest - {event};
        index := index[(event, e.spec.kind) := At(index, (event, e.spec.kind)) + [e]];
      }
    }

    method UnregisterHook(order: nat) returns (ok: bool)
      modifies this`entries, this`index
      ensures (View(), ok) == Unregister(old(View()), order)
    {
      if forall k | 0 <= k < |entries| :: entries[k].order != order {
        return true;
      }
      if state == Ready || state == Closed {
        return false;
      }
      entries, index := Reject(entries, HasOrder(order)), map[];
      ok := true;
    }

    method DisposeToken(k: nat) returns (ok: bool)
      requires k < |tokens|
      modifies this`entries, this`index, this`tokens
      ensures (View(), ok) == Dispose(old(View()), k)
    {
      if tokens[k].disposed {
        return true;
      }
      ok := UnregisterHook(tokens[k].order);
      if ok {
        tokens := tokens[k := Token(tokens[k].order, true)];
      }
    }

    method CloseBus()
      modifies this
      ensures View() == Close(old(View()))
    {
      if state == Closed {
        return;
      }
      state := Draining;
      ghost var draining := View();
      var k := |tokens|;
      while k > 0
        invariant 0 <= k <= |tokens| && DisposeDown(View(), k) == DisposeDown(draining, |draining.tokens|)
      {
        k := k - 1;
        var ok := DisposeToken(k);
      }
      tokens, state := [], Closed;
    }

    /** Whether the bus is frozen and the request is for its run and session. */
    predicate Accepts(request: Request)
      reads this
    {
      state == Ready && request.runId == runId && request.sessionId == sessionId
    }

    /** Dispatches only for an accepted request of the right event. */
    method BeforeTool(request: Request, arguments: string, hs: Handlers) returns (resolution: Option<BeforeResolution>, ghost called: seq<nat>)
      ensures resolution.Some? <==>
        state == Ready && request.runId == runId && request.sessionId == sessionId && request.event == BEFORE
      ensures resolution.None? ==> called == []
      ensures resolution.Some? ==> (resolution.value, called) == BeforeChain(At(index, (BEFORE, Kind.BeforeTool)), arguments, hs)
    {
      if !Accepts(request) || request.event != BEFORE {
        return None, [];
      }
      var r;
      r, called := DispatchBefore(arguments, hs);
      resolution := Some(r);
    }

    method DispatchBefore(arguments: string, hs: Handlers) returns (r: BeforeResolution, ghost called: seq<nat>)
      ensures r == BeforeChain(At(index, (BEFORE, Kind.BeforeTool)), arguments, hs).0
      ensures called == BeforeChain(At(index, (BEFORE, Kind.BeforeTool)), arguments, hs).1
    {
      var es := At(index, (BEFORE, Kind.BeforeTool));
      var current := arguments;
      called := [];
      assert es[0..] == es && [] + BeforeChain(es, arguments, hs).1 == BeforeChain(es, arguments, hs).1;
      for k := 0 to |es|
        invariant BeforeChain(es, arguments, hs) ==
          (BeforeChain(es[k..], current, hs).0, called + BeforeChain(es[k..], current, hs).1)
      {
        assert es[k..][0] == es[k] && es[k..][1..] == es[k + 1..];
        r := BeforeStep(es[k], current, hs);
        assert r.Allowed? ==> called + ([es[k].order] + BeforeChain(es[k + 1..], r.arguments, hs).1)
                              == called + [es[k].order] + BeforeChain(es[k + 1..], r.arguments, hs).1;
        called := called + [es[k].order];
        if !r.Allowed? {
          return;
        }
        current := r.arguments;
      }
      assert es[|es|..] == [] && called + [] == called;
      r := Allowed(current);
    }

    method AfterTool(request: Request, text: Text, flags: Flags, hs: Handlers) returns (resolution: Option<TextResolution>, ghost called: seq<nat>)
      ensures resolution.Some? <==>
        state == Ready && request.runId == runId && request.sessionId == sessionId && request.event == AFTER
      ensures resolution.None? ==> called == []
      ensures resolution.Some? ==> (resolution.value, called) == TextChain(At(index, (AFTER, Kind.ResultText)), text, false, flags, hs)
    {
      if !Accepts(request) || request.event != AFTER {
        return None, [];
      }
      var r;
      r, called := DispatchAfter(text, flags, hs);
      resolution := Some(r);
    }

    method DispatchAfter(text: Text, flags: Flags, hs: Handlers) returns (r: TextResolution, ghost called: seq<nat>)
      ensures r == TextChain(At(index, (AFTER, Kind.ResultText)), text, false, flags, hs).0
      ensures called == TextChain(At(index, (AFTER, Kind.ResultText)), text, false, flags, hs).1
    {
      var es := At(index, (AFTER, Kind.ResultText));
      var current, modified := text, false;
      called := [];
      assert es[0..] == es && [] + TextChain(es, text, false, flags, hs).1 == TextChain(es, text, false, flags, hs).1;
      for k := 0 to |es|
        invariant TextChain(es, text, false, flags, hs) ==
          (TextChain(es[k..], current, modified, flags, hs).0, called + TextChain(es[k..], current, modified, flags, hs).1)
      {
        assert es[k..][0] == es[k] && es[k..][1..] == es[k + 1..];
        if !Listens(es[k], flags) {
          assert [] + TextChain(es[k + 1..], current, modified, flags, hs).1 == TextChain(es[k + 1..], current, modified, flags, hs).1;
          continue;
        }
        r := TextStep(es[k], current, modified, flags, hs);
        assert r.Delivered? ==> called + ([es[k].order] + TextChain(es[k + 1..], r.text, r.modified, flags, hs).1)
                                == called + [es[k].order] + TextChain(es[k + 1..], r.text, r.modified, flags, hs).1;
        called := called + [es[k].order];
        if !r.Delivered? {
          return;
        }
        current, modified := r.text, r.modified;
      }
      assert es[|es|..] == [] && called + [] == called;
      r := Delivered(current, modified);
    }
  }

  // ---- Every run of the bus ----

  datatype Action = DoRegister(spec: Spec, owner: Owner) | DoFreeze(index: map<Slot, seq<Entry>>) | DoDispose(k: nat) | DoClose

  ghost predicate Enabled(b: Bus, a: Action) {
    match a
    case DoFreeze(index) => b.state == Registering ==> IsIndex(index, b.entries)
    case DoDispose(k) => k < |b.tokens|
    case _ => true
  }

  function Step(b: Bus, a: Action): Bus
    requires a.DoDispose? ==> a.k < |b.tokens|
  {
    match a
    case DoRegister(spec, owner) => Register(b, spec, owner).0
    case DoFreeze(index) => if b.state == Registering then b.(state := Ready, index := index) else b
    case DoDispose(k) => Dispose(b, k).0
    case DoClose => Close(b)
  }

  ghost predicate Trace(b: Bus, actions: seq<Action>, b': Bus)
    decreases |actions|
  {
    if actions == [] then b == b' else Enabled(b, actions[0]) && Trace(Step(b, actions[0]), actions[1..], b')
  }

  /** A new bus. */
  function Initial(runId: string): Bus {
    Bus(runId, Registering, [], map[], 0, [])
  }

  ghost predicate Reachable(b: Bus) {
    exists runId, actions :: Trace(Initial(runId), actions, b)
  }

  /** Registrations are numbered in order, and no plug-in has registered a hook twice. */
  ghost predicate Ascending(es: seq<Entry>) {
    forall j, k | 0 <= j < k < |es| :: es[j].order < es[k].order && !SameHook(es[j], es[k].owner, es[k].spec)
  }

  ghost predicate Owned(tokens: seq<Token>, order: nat) {
    exists k :: 0 <= k < |tokens| && tokens[k] == Token(order, false)
  }

  /** Every registration can still be undone, and handles only events its kind may handle. */
  ghost predicate Proper(e: Entry, count: nat, tokens: seq<Token>) {
    e.order <= count && Owned(tokens, e.order) && e.spec.events <= EventsOf(e.spec.kind)
  }

  ghost predicate Inv(b: Bus) {
    && Ascending(b.entries)
    && (forall e | e in b.entries :: Proper(e, b.count, b.tokens))
    && (b.state == Ready ==> IsIndex(b.index, b.entries))
    && (b.state == Closed ==> b.entries == [])
  }

  lemma RegisterKeepsInv(b: Bus, spec: Spec, owner: Owner)
    requires Inv(b)
    ensures Inv(Register(b, spec, owner).0)
  {
    var b' := Register(b, spec, owner).0;
    if Register(b, spec, owner).1.None? {
      var n := |b.entries|;
      forall e | e in b'.entries ensures Proper(e, b'.count, b'.tokens) {
        if e in b.entries {
          var k :| 0 <= k < |b.tokens| && b.tokens[k] == Token(e.order, false);
          assert b'.tokens[k] == Token(e.order, false);
        } else {
          assert b'.tokens[|b.tokens|] == Token(e.order, false);
        }
      }
      forall j | 0 <= j < n ensures b'.entries[j].order < b'.entries[n].order {
        assert b.entries[j] in b.entries;
      }
    }
  }

  lemma AscendingCons(first: Entry, rest: seq<Entry>)
    ensures Ascending([first] + rest) <==>
            Ascending(rest) && forall e | e in rest :: first.order < e.order && !SameHook(first, e.owner, e.spec)
  {
    var all := [first] + rest;
    if Ascending(all) {
      forall e | e in rest ensures first.order < e.order && !SameHook(first, e.owner, e.spec) {
        var k :| 0 <= k < |rest| && rest[k] == e;
        assert all[k + 1] == e && all[0] == first;
      }
      forall j, k | 0 <= j < k < |rest| ensures rest[j].order < rest[k].order && !SameHook(rest[j], rest[k].owner, rest[k].spec) {
        assert all[j + 1] == rest[j] && all[k + 1] == rest[k];
      }
    }
  }

  /** Dropping entries keeps the rest in place. */
  lemma {:induction false} RejectKeepsAscending(es: seq<Entry>, order: nat)
    requires Ascending(es)
    ensures Ascending(Reject(es, HasOrder(order)))
  {
    if es != [] {
      var first, t := es[0], es[1..];
      var rest := Reject(t, HasOrder(order));
      assert es == [first] + t;
      AscendingCons(first, t);
      RejectKeepsAscending(t, order);
      if first.order == order {
        assert [] + rest == rest;
      } else {
        AscendingCons(first, rest);
      }
    }
  }

  lemma OtherOwned(tokens: seq<Token>, k: nat, order: nat)
    requires k < |tokens| && Owned(tokens, order) && tokens[k].order != order
    ensures Owned(tokens[k := Token(tokens[k].order, true)], order)
  {
    var j :| 0 <= j < |tokens| && tokens[j] == Token(order, false);
    assert tokens[k := Token(tokens[k].order, true)][j] == Token(order, false);
  }

  lemma DisposeKeepsInv(b: Bus, k: nat)
    requires Inv(b) && k < |b.tokens|
    ensures Inv(Dispose(b, k).0) && Dispose(b, k).0.state == b.state
  {
    var t := b.tokens[k];
    if !t.disposed && Unregister(b, t.order).1 {
      var kept := Unregister(b, t.order).0.entries;
      var tokens := b.tokens[k := Token(t.order, true)];
      RejectKeepsAscending(b.entries, t.order);
      forall e | e in kept ensures Proper(e, b.count, tokens) {
        assert e in b.entries;
        var j :| 0 <= j < |b.entries| && b.entries[j] == e;
        OtherOwned(b.tokens, k, e.order);
      }
    }
  }

  lemma DrainingDisposes(b: Bus, n: nat)
    requires Inv(b) && b.state == Draining && 0 < n <= |b.tokens|
    requires forall j | n <= j < |b.tokens| :: b.tokens[j].disposed
    ensures var b' := Dispose(b, n - 1).0;
            && Inv(b') && b'.state == Draining && |b'.tokens| == |b.tokens|
            && forall j | n - 1 <= j < |b'.tokens| :: b'.tokens[j].disposed
  {
    DisposeKeepsInv(b, n - 1);
    assert Dispose(b, n - 1).0.tokens == b.tokens[n - 1 := Token(b.tokens[n - 1].order, true)];
  }

  /** Once draining, disposing every token leaves no registration behind. */
  lemma {:induction false} DisposeDownEmpties(b: Bus, n: nat)
    requires Inv(b) && b.state == Draining && n <= |b.tokens|
    requires forall j | n <= j < |b.tokens| :: b.tokens[j].disposed
    ensures DisposeDown(b, n).entries == []
    decreases n
  {
    if n == 0 {
      NoTokensNoEntries(b);
    } else {
      DrainingDisposes(b, n);
      DisposeDownEmpties(Dispose(b, n - 1).0, n - 1);
    }
  }

  lemma NoTokensNoEntries(b: Bus)
    requires Inv(b) && forall j | 0 <= j < |b.tokens| :: b.tokens[j].disposed
    ensures b.entries == []
  {
    forall e: Entry ensures !Proper(e, b.count, b.tokens) {
      NoneOwned(b.tokens, e.order);
    }
    if b.entries != [] { FirstIsMember(b.entries); }
  }

  lemma NoneOwned(tokens: seq<Token>, order: nat)
    requires forall j | 0 <= j < |tokens| :: tokens[j].disposed
    ensures !Owned(tokens, order)
  {
  }

  lemma FirstIsMember(es: seq<Entry>)
    requires es != []
    ensures exists e :: e in es
  {
    assert es[0] in es;
  }

  lemma ClosingEmpties(b: Bus)
    requires Inv(b)
    ensures Close(b).entries == [] && Close(b).state == Closed && (b.state != Closed ==> Close(b).tokens == [])
  {
    if b.state != Closed { DisposeDownEmpties(b.(state := Draining), |b.tokens|); }
  }

  lemma StepKeepsInv(b: Bus, a: Action)
    requires Inv(b) && Enabled(b, a)
    ensures Inv(Step(b, a))
  {
    match a
    case DoRegister(spec, owner) => RegisterKeepsInv(b, spec, owner);
    case DoFreeze(_) =>
    case DoDispose(k) => DisposeKeepsInv(b, k);
    case DoClose => ClosingEmpties(b);
  }

  lemma {:induction false} TraceKeepsInv(b: Bus, actions: seq<Action>, b': Bus)
    requires Inv(b) && Trace(b, actions, b')
    ensures Inv(b')
    decreases |actions|
  {
    if actions != [] {
      StepKeepsInv(b, actions[0]);
      TraceKeepsInv(Step(b, actions[0]), actions[1..], b');
    }
  }

  lemma ReachableInv(b: Bus)
    requires Reachable(b)
    ensures Inv(b)
  {
    var runId, actions :| Trace(Initial(runId), actions, b);
    TraceKeepsInv(Initial(runId), actions, b);
  }

  /** Closing empties the registry. */
  lemma CloseEmpties(b: Bus)
    requires Reachable(b)
    ensures Close(b).entries == [] && Close(b).state == Closed && (b.state != Closed ==> Close(b).tokens == [])
  {
    ReachableInv(b);
    ClosingEmpties(b);
  }

  lemma EarlierIsTotal()
    ensures TotalPreorder(Earlier)
  {
  }

  /** While the bus dispatches, each index list holds exactly the matching registrations, each once, by priority and
      then by order of registration. */
  lemma IndexIsExact(b: Bus, slot: Slot)
    requires Reachable(b) && b.state == Ready
    ensures var list := At(b.index, slot);
            && SortedBy(list, Earlier)
            && (forall e :: e in list <==> e in b.entries && Handles(slot)(e))
            && (forall j, k | 0 <= j < k < |list| :: list[j].order != list[k].order)
  {
    var ordered := SortBy(b.entries, Earlier);
    ReachableInv(b);
    EarlierIsTotal();
    SortSorts(b.entries, Earlier);
    SortKeepsItems(b.entries, Earlier);
    SortKeepsNumbers(b.entries);
    FilterKeepsNumbers(ordered, Handles(slot));
  }

  ghost predicate DistinctNumbers(es: seq<Entry>) {
    forall j, k | 0 <= j < k < |es| :: es[j].order != es[k].order
  }

  lemma {:induction false} SortKeepsNumbers(es: seq<Entry>)
    requires DistinctNumbers(es)
    ensures DistinctNumbers(SortBy(es, Earlier))
  {
    if es != [] {
      var sorted := SortBy(es[1..], Earlier);
      SortKeepsNumbers(es[1..]);
      SortKeepsItems(es[1..], Earlier);
      forall e | e in sorted ensures e.order != es[0].order {
        var j :| 0 <= j < |es[1..]| && es[1..][j] == e;
        assert es[j + 1] == e;
      }
      InsertKeepsNumbers(es[0], sorted);
    }
  }

  lemma {:induction false} InsertKeepsNumbers(x: Entry, es: seq<Entry>)
    requires DistinctNumbers(es) && forall e | e in es :: e.order != x.order
    ensures DistinctNumbers(Insert(x, es, Earlier)) && forall e | e in Insert(x, es, Earlier) :: e == x || e in es
  {
    if es != [] && !Earlier(x, es[0]) {
      var t := Insert(x, es[1..], Earlier);
      InsertKeepsNumbers(x, es[1..]);
      forall k | 0 <= k < |t| ensures t[k].order != es[0].order {
        assert t[k] in t;
        if t[k] in es[1..] {
          var j :| 0 <= j < |es[1..]| && es[1..][j] == t[k];
          assert es[j + 1] == t[k];
        } else {
          assert es[0] in es;
        }
      }
    }
  }

  lemma {:induction false} FilterKeepsNumbers(es: seq<Entry>, p: Entry -> bool)
    requires DistinctNumbers(es) && SortedBy(es, Earlier)
    ensures DistinctNumbers(Filter(es, p)) && SortedBy(Filter(es, p), Earlier)
  {
    if es != [] {
      var first, t := es[0], es[1..];
      var kept := Filter(t, p);
      FilterKeepsNumbers(t, p);
      forall k | 0 <= k < |kept| ensures kept[k].order != first.order && Earlier(first, kept[k]) {
        assert kept[k] in t;
        var j :| 0 <= j < |t| && t[j] == kept[k];
        assert es[j + 1] == kept[k];
      }
    }
  }

  /** While the bus dispatches, no registration is added or undone. */
  lemma ReadyIsFrozen(b: Bus, a: Action)
    requires b.state == Ready && Enabled(b, a) && !a.DoClose?
    ensures Step(b, a).entries == b.entries && Step(b, a).index == b.index && Step(b, a).state == Ready
  {
  }

  // ---- The chains ----

  /** What a handler that is given these arguments hands on, if it does not end the chain. */
  function HandsOn(e: Entry, given: string, hs: Handlers): Option<string> {
    if e.spec.legacy then
      var call := hs.legacyBefore(e.order, given);
      if call.outcome.Interrupted? then None
      else if call.outcome.Completed? && call.outcome.value.Some? then call.outcome.value
      else Some(call.left)
    else
      var o := hs.before(e.order, given);
      if o.Skipped? || o == Completed(Allow) then Some(given)
      else if o.Completed? && o.value.Modify? then Some(o.value.arguments)
      else None
  }

  /** The arguments that the handler at `k` is given, if it is reached. */
  function Given(es: seq<Entry>, k: nat, arguments: string, hs: Handlers): Option<string>
    requires k <= |es|
  {
    if k == 0 then Some(arguments)
    else if Given(es, k - 1, arguments, hs).None? then None
    else HandsOn(es[k - 1], Given(es, k - 1, arguments, hs).value, hs)
  }

  function Numbers(es: seq<Entry>): (r: seq<nat>)
    ensures |r| == |es| && forall k | 0 <= k < |r| :: r[k] == es[k].order
  {
    seq(|es|, k requires 0 <= k < |es| => es[k].order)
  }

  lemma {:induction false} ArgumentsShift(es: seq<Entry>, k: nat, arguments: string, hs: Handlers)
    requires 0 < k <= |es|
    ensures Given(es, k, arguments, hs) ==
            var r := BeforeStep(es[0], arguments, hs);
            if r.Allowed? then Given(es[1..], k - 1, r.arguments, hs) else None
    decreases k
  {
    if k > 1 { ArgumentsShift(es, k - 1, arguments, hs); }
  }

  /** `k` handlers pass the arguments on; the next one, if there is one, ends the chain and is the last one called. */
  ghost predicate ChainIs(es: seq<Entry>, arguments: string, hs: Handlers, k: nat) {
    && k <= |es| && Given(es, k, arguments, hs).Some?
    && var passed, chain := Given(es, k, arguments, hs).value, BeforeChain(es, arguments, hs);
       if k == |es| then chain == (Allowed(passed), Numbers(es))
       else var r := BeforeStep(es[k], passed, hs); !r.Allowed? && chain == (r, Numbers(es[..k + 1]))
  }

  lemma ChainStops(es: seq<Entry>, arguments: string, hs: Handlers)
    requires es != [] && !BeforeStep(es[0], arguments, hs).Allowed?
    ensures ChainIs(es, arguments, hs, 0)
  {
    assert [es[0].order] == Numbers(es[..1]);
  }

  lemma ChainGoesOn(es: seq<Entry>, arguments: string, hs: Handlers, j: nat)
    requires es != [] && BeforeStep(es[0], arguments, hs).Allowed?
    requires ChainIs(es[1..], BeforeStep(es[0], arguments, hs).arguments, hs, j)
    ensures ChainIs(es, arguments, hs, j + 1)
  {
    ArgumentsShift(es, j + 1, arguments, hs);
    if j == |es| - 1 {
      NumbersOfFirst(es, |es|);
      assert es[..|es|] == es && es[1..|es|] == es[1..];
    } else {
      NumbersOfFirst(es, j + 2);
      assert es[1..][..j + 1] == es[1..j + 2];
    }
  }

  lemma NumbersOfFirst(es: seq<Entry>, n: nat)
    requires 0 < n <= |es|
    ensures Numbers(es[..n]) == [es[0].order] + Numbers(es[1..n])
  {
    assert es[..n] == [es[0]] + es[1..n];
  }

  /** The chain calls the handlers in order up to the first one that ends it, and none after that; if none does, all
      are called and the arguments they pass on are allowed. */
  lemma {:induction false} ChainEndsAtFirst(es: seq<Entry>, arguments: string, hs: Handlers) returns (k: nat)
    ensures ChainIs(es, arguments, hs, k)
    decreases |es|
  {
    if es == [] {
      k := 0;
    } else if BeforeStep(es[0], arguments, hs).Allowed? {
      var j := ChainEndsAtFirst(es[1..], BeforeStep(es[0], arguments, hs).arguments, hs);
      k := j + 1;
      ChainGoesOn(es, arguments, hs, j);
    } else {
      k := 0;
      ChainStops(es, arguments, hs);
    }
  }

  lemma {:induction false} GivenBefore(es: seq<Entry>, j: nat, k: nat, arguments: string, hs: Handlers)
    requires j <= k <= |es| && Given(es, k, arguments, hs).Some?
    ensures Given(es, j, arguments, hs).Some?
    decreases k
  {
    if j < k { GivenBefore(es, j, k - 1, arguments, hs); }
  }

  /** A new-style handler that fails always denies the tool call, whatever the handlers after it would say. */
  lemma FailureDenies(es: seq<Entry>, k: nat, arguments: string, hs: Handlers)
    requires k < |es| && !es[k].spec.legacy && Given(es, k, arguments, hs).Some?
    requires hs.before(es[k].order, Given(es, k, arguments, hs).value).Failed?
    ensures var (r, called) := BeforeChain(es, arguments, hs);
            r.Denied? && r.code == FAILED_CODE && r.hookId == es[k].spec.hookId && called == Numbers(es[..k + 1])
  {
    var j := ChainEndsAtFirst(es, arguments, hs);
    assert Given(es, k + 1, arguments, hs) == None;
    if j < k {
      GivenBefore(es, j + 1, k, arguments, hs);
    } else if k < j {
      GivenBefore(es, k + 1, j, arguments, hs);
    }
  }

  // ---- The answer in terms of what the handlers answer ----

  /** The handler at `k` is reached and denies the call with this reason and code, or fails with this error. */
  ghost predicate DeniesAt(es: seq<Entry>, k: nat, arguments: string, hs: Handlers, reason: string, code: string) {
    && k < |es| && !es[k].spec.legacy && Given(es, k, arguments, hs).Some?
    && var o := hs.before(es[k].order, Given(es, k, arguments, hs).value);
       || o == Completed(Deny(reason, code))
       || (o.Failed? && code == "HOOK_EXECUTION_FAILED"
           && reason == "Hook " + es[k].spec.hookId + " \U{6267}\U{884c}\U{5931}\U{8d25}\U{ff1a}" + o.error)
  }

  /** The handler at `k` is reached and interrupted. */
  ghost predicate InterruptedAt(es: seq<Entry>, k: nat, arguments: string, hs: Handlers) {
    && k < |es| && Given(es, k, arguments, hs).Some?
    && var given := Given(es, k, arguments, hs).value;
       if es[k].spec.legacy then hs.legacyBefore(es[k].order, given).outcome.Interrupted?
       else hs.before(es[k].order, given).Interrupted?
  }

  /** Where the chain ends, and how: at the first handler that denies, fails or is interrupted, or after the last one. */
  lemma ChainEnds(es: seq<Entry>, arguments: string, hs: Handlers) returns (k: nat)
    ensures k <= |es| && Given(es, k, arguments, hs).Some?
    ensures var (r, called) := BeforeChain(es, arguments, hs);
            if k == |es| then r == Allowed(Given(es, k, arguments, hs).value) && called == Numbers(es)
            else
              && called == Numbers(es[..k + 1]) && Given(es, k + 1, arguments, hs).None?
              && if InterruptedAt(es, k, arguments, hs) then r == BeforeRaised
                 else r.Denied? && r.hookId == es[k].spec.hookId && r.source == es[k].owner.source
                      && DeniesAt(es, k, arguments, hs, r.reason, r.code)
  {
    k := ChainEndsAtFirst(es, arguments, hs);
  }

  /** A handler that denies, fails or is interrupted hands nothing on, so at most one handler of a list does so. */
  lemma OneEnds(es: seq<Entry>, j: nat, k: nat, arguments: string, hs: Handlers)
    requires j < |es| && Given(es, j, arguments, hs).Some? && Given(es, j + 1, arguments, hs).None?
    requires k <= |es| && Given(es, k, arguments, hs).Some? && (k == |es| || Given(es, k + 1, arguments, hs).None?)
    ensures j == k
  {
    if j < k { GivenBefore(es, j + 1, k, arguments, hs); }
    if k < j { GivenBefore(es, k + 1, j, arguments, hs); }
  }

  /** The call is denied exactly when some handler that is reached denies it or fails. The denial is that handler's, in
      its name, and exactly the handlers up to it are called. */
  lemma DeniedExactly(es: seq<Entry>, arguments: string, hs: Handlers)
    ensures BeforeChain(es, arguments, hs).0.Denied? <==> exists k: nat, reason, code :: DeniesAt(es, k, arguments, hs, reason, code)
    ensures forall k: nat, reason, code | DeniesAt(es, k, arguments, hs, reason, code) ::
              BeforeChain(es, arguments, hs) == (Denied(reason, code, es[k].spec.hookId, es[k].owner.source), Numbers(es[..k + 1]))
  {
    var n := ChainEnds(es, arguments, hs);
    forall k: nat, reason, code | DeniesAt(es, k, arguments, hs, reason, code)
      ensures BeforeChain(es, arguments, hs) == (Denied(reason, code, es[k].spec.hookId, es[k].owner.source), Numbers(es[..k + 1]))
    {
      OneEnds(es, k, n, arguments, hs);
    }
    if BeforeChain(es, arguments, hs).0.Denied? {
      var r := BeforeChain(es, arguments, hs).0;
      assert DeniesAt(es, n, arguments, hs, r.reason, r.code);
    }
  }

  /** The call is allowed exactly when every handler is reached and hands something on; the tool gets what the last one
      hands on. */
  lemma AllowedExactly(es: seq<Entry>, arguments: string, hs: Handlers)
    ensures BeforeChain(es, arguments, hs).0.Allowed? <==> Given(es, |es|, arguments, hs).Some?
    ensures Given(es, |es|, arguments, hs).Some? ==>
              BeforeChain(es, arguments, hs) == (Allowed(Given(es, |es|, arguments, hs).value), Numbers(es))
  {
    var n := ChainEnds(es, arguments, hs);
    if n < |es| && Given(es, |es|, arguments, hs).Some? {
      GivenBefore(es, n + 1, |es|, arguments, hs);
      assert false;
    }
  }

  /** Dispatching raises exactly when a handler that is reached is interrupted. */
  lemma RaisedExactly(es: seq<Entry>, arguments: string, hs: Handlers)
    ensures BeforeChain(es, arguments, hs).0.BeforeRaised? <==> exists k: nat :: InterruptedAt(es, k, arguments, hs)
  {
    var n := ChainEnds(es, arguments, hs);
    forall k: nat | InterruptedAt(es, k, arguments, hs) ensures k == n && n < |es| {
      OneEnds(es, k, n, arguments, hs);
    }
  }

  /** The callback settles nothing: it fails, or returns no arguments of its own. */
  ghost predicate SettlesNothing(e: Entry, hs: Handlers) {
    e.spec.legacy && forall x :: hs.legacyBefore(e.order, x).outcome.Failed? || hs.legacyBefore(e.order, x).outcome == Completed(None)
  }

  ghost predicate LeavesAlone(e: Entry, hs: Handlers) {
    forall x :: hs.legacyBefore(e.order, x).left == x
  }

  /** A legacy callback that fails or returns nothing, and leaves its arguments alone, is as good as absent. */
  lemma {:induction false} LegacyFailureIsSkipped(a: seq<Entry>, e: Entry, b: seq<Entry>, arguments: string, hs: Handlers)
    requires SettlesNothing(e, hs) && LeavesAlone(e, hs)
    ensures BeforeChain(a + [e] + b, arguments, hs).0 == BeforeChain(a + b, arguments, hs).0
    decreases |a|
  {
    if a == [] {
      assert ([] + [e] + b)[0] == e && ([] + [e] + b)[1..] == b && [] + b == b;
    } else {
      var r := BeforeStep(a[0], arguments, hs);
      assert (a + [e] + b)[1..] == a[1..] + [e] + b && (a + b)[1..] == a[1..] + b;
      if r.Allowed? { LegacyFailureIsSkipped(a[1..], e, b, r.arguments, hs); }
    }
  }

  /** Wherever it stands, the callback makes no difference. */
  ghost predicate AsGoodAsAbsent(e: Entry, hs: Handlers) {
    forall a, b, arguments :: BeforeChain(a + [e] + b, arguments, hs).0 == BeforeChain(a + b, arguments, hs).0
  }

  /** A callback that fails or returns nothing is as good as absent exactly when it leaves its arguments alone. */
  lemma SkippedIffLeftAlone(e: Entry, hs: Handlers)
    requires SettlesNothing(e, hs)
    ensures AsGoodAsAbsent(e, hs) <==> LeavesAlone(e, hs)
  {
    if LeavesAlone(e, hs) {
      forall a, b, arguments ensures BeforeChain(a + [e] + b, arguments, hs).0 == BeforeChain(a + b, arguments, hs).0 {
        LegacyFailureIsSkipped(a, e, b, arguments, hs);
      }
    } else {
      var x :| hs.legacyBefore(e.order, x).left != x;
      OnlyLegacy(e, x, hs);
      assert BeforeChain([] + [e] + [], x, hs).0 != BeforeChain([] + [], x, hs).0;
    }
  }

  lemma OnlyLegacy(e: Entry, x: string, hs: Handlers)
    requires SettlesNothing(e, hs)
    ensures BeforeChain([] + [e] + [], x, hs).0 == Allowed(hs.legacyBefore(e.order, x).left)
    ensures BeforeChain([] + [], x, hs).0 == Allowed(x)
  {
    var none: seq<Entry> := [];
    assert none + [e] + none == [e] && [e][1..] == none && none + none == none;
  }

  function IsLegacy(): Entry -> bool {
    (e: Entry) => e.spec.legacy
  }

  /** Whatever the other handlers do, legacy callbacks that all fail make no difference to this list. */
  ghost predicate FailuresVanish(es: seq<Entry>) {
    forall arguments, hs | AllLegacyFail(es, hs) ::
      BeforeChain(es, arguments, hs).0 == BeforeChain(Reject(es, IsLegacy()), arguments, hs).0
  }

  ghost predicate AllLegacyFail(es: seq<Entry>, hs: Handlers) {
    forall e, x | e in es && e.spec.legacy :: hs.legacyBefore(e.order, x).outcome.Failed?
  }

  /** New-style handlers that skip, and legacy callbacks that put these arguments into the dictionary and then fail. */
  function Spoiling(arguments: string): Handlers {
    Handlers((_, _) => LegacyCall(Failed("error"), arguments), (_, _) => Skipped, (_, _) => Skipped, (_, _) => Skipped)
  }

  lemma {:induction false} SpoiledByLegacy(es: seq<Entry>, arguments: string, other: string)
    ensures BeforeChain(es, arguments, Spoiling(other)).0 ==
            Allowed(if exists e :: e in es && e.spec.legacy then other else arguments)
    decreases |es|
  {
    if es != [] {
      var r := BeforeStep(es[0], arguments, Spoiling(other));
      SpoiledByLegacy(es[1..], r.arguments, other);
      assert es == [es[0]] + es[1..];
      assert es[0] in es;
    }
  }

  /** Failing legacy callbacks make no difference to a list, for all handlers and arguments, exactly when it holds none. */
  lemma FailuresVanishIff(es: seq<Entry>)
    ensures FailuresVanish(es) <==> forall e | e in es :: !e.spec.legacy
  {
    if forall e | e in es :: !e.spec.legacy {
      RejectNone(es, IsLegacy());
    } else {
      var hs := Spoiling("b");
      SpoiledByLegacy(es, "a", "b");
      SpoiledByLegacy(Reject(es, IsLegacy()), "a", "b");
      assert AllLegacyFail(es, hs);
      assert "a"[0] != "b"[0];
      assert BeforeChain(es, "a", hs).0 != BeforeChain(Reject(es, IsLegacy()), "a", hs).0;
    }
  }

  const LEGACY_STARTER := Entry(1, Spec("on_tool_start", {BEFORE}, Kind.BeforeTool, 0, None, true, true),
                                Owner("run", "r", "p", "1", "s"))

  /** One legacy callback changes the arguments and then fails: the tool is called with what it left behind. */
  lemma FailedLegacyChangesArguments()
    ensures BeforeChain([LEGACY_STARTER], "a", Spoiling("b")) == (Allowed("b"), [1])
    ensures BeforeChain([], "a", Spoiling("b")) == (Allowed("a"), [])
  {
    var es, hs := [LEGACY_STARTER], Spoiling("b");
    assert es[0] == LEGACY_STARTER && es[1..] == [];
    assert BeforeStep(LEGACY_STARTER, "a", hs) == Allowed("b");
    assert BeforeChain(es[1..], "b", hs) == (Allowed("b"), []);
    assert [1] + [] == [1];
  }

  /** What a handler makes of the text, if it does not end the chain; one that is not to hear of it leaves it alone. */
  function HandsOnText(e: Entry, text: Text, flags: Flags, hs: Handlers): Option<Text> {
    if e.spec.legacy then
      var o := hs.legacyText(e.order, text);
      if !flags.visible then Some(text)
      else if o.Interrupted? then None
      else if o.Completed? && o.value.Some? then o.value
      else Some(text)
    else
      var o := hs.text(e.order, text);
      if !flags.executed || o.Skipped? || o == Completed(Keep) then Some(text)
      else if o.Completed? && o.value.Replace? then Some(o.value.text)
      else None
  }

  /** The text that reaches the handler at `k`, if the chain gets there. */
  function TextGiven(es: seq<Entry>, k: nat, text: Text, flags: Flags, hs: Handlers): Option<Text>
    requires k <= |es|
  {
    if k == 0 then Some(text)
    else if TextGiven(es, k - 1, text, flags, hs).None? then None
    else HandsOnText(es[k - 1], TextGiven(es, k - 1, text, flags, hs).value, flags, hs)
  }

  /** The handler at `k` is of the new style, is called, and replaces the text it is given. */
  ghost predicate ReplacesAt(es: seq<Entry>, k: nat, text: Text, flags: Flags, hs: Handlers) {
    && k < |es| && !es[k].spec.legacy && flags.executed
    && TextGiven(es, k, text, flags, hs).Some?
    && var o := hs.text(es[k].order, TextGiven(es, k, text, flags, hs).value); o.Completed? && o.value.Replace?
  }

  lemma {:induction false} TextShift(es: seq<Entry>, k: nat, text: Text, flags: Flags, hs: Handlers)
    requires 0 < k <= |es|
    ensures TextGiven(es, k, text, flags, hs) ==
            var r := TextStep(es[0], text, false, flags, hs);
            if r.Delivered? then TextGiven(es[1..], k - 1, r.text, flags, hs) else None
    decreases k
  {
    if k > 1 { TextShift(es, k - 1, text, flags, hs); }
  }

  lemma ReplacesShift(es: seq<Entry>, k: nat, text: Text, flags: Flags, hs: Handlers)
    requires k < |es| - 1 && TextStep(es[0], text, false, flags, hs).Delivered?
    ensures ReplacesAt(es, k + 1, text, flags, hs)
            <==> ReplacesAt(es[1..], k, TextStep(es[0], text, false, flags, hs).text, flags, hs)
  {
    TextShift(es, k + 1, text, flags, hs);
  }

  /** The result counts as modified exactly when some new-style handler was called and replaced the text it was given. */
  lemma {:induction false} ModifiedIffReplaced(es: seq<Entry>, text: Text, modified: bool, flags: Flags, hs: Handlers)
    requires TextChain(es, text, modified, flags, hs).0.Delivered?
    ensures TextChain(es, text, modified, flags, hs).0.modified <==> modified || exists k: nat :: ReplacesAt(es, k, text, flags, hs)
    decreases |es|
  {
    if es != [] {
      var r, t := TextStep(es[0], text, modified, flags, hs), es[1..];
      ModifiedIffReplaced(t, r.text, r.modified, flags, hs);
      assert TextStep(es[0], text, false, flags, hs).text == r.text;
      assert r.modified <==> modified || ReplacesAt(es, 0, text, flags, hs);
      if k: nat :| ReplacesAt(es, k, text, flags, hs) && k > 0 { ReplacesShift(es, k - 1, text, flags, hs); }
      if k: nat :| ReplacesAt(t, k, r.text, flags, hs) { ReplacesShift(es, k, text, flags, hs); }
    }
  }

  /** Whatever the handlers do, a delivered text that does not count as modified is the original one. */
  ghost predicate FlagIsSound(es: seq<Entry>, flags: Flags) {
    forall text, hs :: var r := TextChain(es, text, false, flags, hs).0; r.Delivered? && !r.modified ==> r.text == text
  }

  lemma {:induction false} UnmodifiedIsUnchanged(es: seq<Entry>, text: Text, flags: Flags, hs: Handlers)
    requires forall e | e in es :: e.spec.legacy ==> !Listens(e, flags)
    requires TextChain(es, text, false, flags, hs).0.Delivered? && !TextChain(es, text, false, flags, hs).0.modified
    ensures TextChain(es, text, false, flags, hs).0.text == text
    decreases |es|
  {
    if es != [] {
      assert es[0] in es;
      var r := TextStep(es[0], text, false, flags, hs);
      if r.modified { ModifiedIffReplaced(es[1..], r.text, true, flags, hs); }
      UnmodifiedIsUnchanged(es[1..], r.text, flags, hs);
    }
  }

  /** New-style handlers that skip, and legacy callbacks that always return this text. */
  function Rewriting(text: Text): Handlers {
    Handlers((_, x) => LegacyCall(Skipped, x), (_, _) => Skipped, (_, _) => Completed(Some(text)), (_, _) => Skipped)
  }

  lemma {:induction false} ListeningLegacyRewrites(es: seq<Entry>, text: Text, other: Text, flags: Flags)
    ensures TextChain(es, text, false, flags, Rewriting(other)).0 ==
            Delivered(if exists e :: e in es && e.spec.legacy && Listens(e, flags) then other else text, false)
    decreases |es|
  {
    if es != [] {
      var r := TextStep(es[0], text, false, flags, Rewriting(other));
      ListeningLegacyRewrites(es[1..], r.text, other, flags);
      assert es == [es[0]] + es[1..];
      assert es[0] in es;
    }
  }

  /** The flag can be trusted exactly when no legacy callback listens to the result. */
  lemma FlagIsSoundIff(es: seq<Entry>, flags: Flags)
    ensures FlagIsSound(es, flags) <==> forall e | e in es :: e.spec.legacy ==> !Listens(e, flags)
  {
    if forall e | e in es :: e.spec.legacy ==> !Listens(e, flags) {
      forall text, hs | TextChain(es, text, false, flags, hs).0.Delivered? && !TextChain(es, text, false, flags, hs).0.modified
        ensures TextChain(es, text, false, flags, hs).0.text == text
      {
        UnmodifiedIsUnchanged(es, text, flags, hs);
      }
    } else {
      var text, other := Text("a", None), Text("b", None);
      ListeningLegacyRewrites(es, text, other, flags);
      assert text.content[0] != other.content[0];
    }
  }

  const LEGACY_LISTENER := Entry(1, Spec("on_tool_result", {AFTER}, Kind.ResultText, 0, None, true, true),
                                 Owner("run", "r", "p", "1", "s"))

  /** A legacy callback delivers another text, and the result still counts as unmodified. */
  lemma LegacyChangesUnnoticed()
    ensures TextChain([LEGACY_LISTENER], Text("a", None), false, Flags(true, true, true), Rewriting(Text("b", None)))
            == (Delivered(Text("b", None), false), [1])
  {
    var es, hs, flags := [LEGACY_LISTENER], Rewriting(Text("b", None)), Flags(true, true, true);
    assert es[0] == LEGACY_LISTENER && es[1..] == [];
    assert Listens(LEGACY_LISTENER, flags);
    assert TextStep(LEGACY_LISTENER, Text("a", None), false, flags, hs) == Delivered(Text("b", None), false);
    assert TextChain(es[1..], Text("b", None), false, flags, hs) == (Delivered(Text("b", None), false), []);
    assert [1] + [] == [1];
  }

  lemma NumbersCons(e: Entry, es: seq<Entry>)
    ensures Numbers([e] + es) == [e.order] + Numbers(es)
  {
  }

  /** Who hears of a text: the first handler if it listens, then the others that do. */
  lemma HeardFirst(es: seq<Entry>, n: nat, flags: Flags)
    requires 0 < n <= |es|
    ensures Numbers(Filter(es[..n], ListensTo(flags))) ==
            (if Listens(es[0], flags) then [es[0].order] else []) + Numbers(Filter(es[1..n], ListensTo(flags)))
  {
    var first, rest := es[0], es[1..n];
    assert es[..n] == [first] + rest;
    FilterCons(first, rest, ListensTo(flags));
    assert ListensTo(flags)(first) == Listens(first, flags);
    if Listens(first, flags) {
      NumbersCons(first, Filter(rest, ListensTo(flags)));
    } else {
      assert [] + Numbers(Filter(rest, ListensTo(flags))) == Numbers(Filter(rest, ListensTo(flags)));
    }
  }

  function ListensTo(flags: Flags): Entry -> bool {
    (e: Entry) => Listens(e, flags)
  }

  /** The handler at `k` hears of the text and suppresses it for this reason, or fails with this error. */
  ghost predicate SuppressesAt(es: seq<Entry>, k: nat, text: Text, flags: Flags, hs: Handlers, reason: string) {
    && k < |es| && !es[k].spec.legacy && flags.executed && TextGiven(es, k, text, flags, hs).Some?
    && var o := hs.text(es[k].order, TextGiven(es, k, text, flags, hs).value);
       || o == Completed(Suppress(reason))
       || (o.Failed? && reason == "Hook " + es[k].spec.hookId + " \U{6267}\U{884c}\U{5931}\U{8d25}\U{ff1a}" + o.error)
  }

  ghost predicate TextInterruptedAt(es: seq<Entry>, k: nat, text: Text, flags: Flags, hs: Handlers) {
    && k < |es| && TextGiven(es, k, text, flags, hs).Some?
    && var given := TextGiven(es, k, text, flags, hs).value;
       if es[k].spec.legacy then flags.visible && hs.legacyText(es[k].order, given).Interrupted?
       else flags.executed && hs.text(es[k].order, given).Interrupted?
  }

  /** What is delivered in place of a suppressed text: only the notice, as the error too when the tool had failed. */
  function NoticeOnly(success: bool): Text {
    Text(SUPPRESSED, if success then None else Some(SUPPRESSED))
  }

  /** The text chain ends at the handler `k`, or after the last one. */
  ghost predicate TextEndsAt(es: seq<Entry>, k: nat, text: Text, modified: bool, flags: Flags, hs: Handlers) {
    && k <= |es| && TextGiven(es, k, text, flags, hs).Some?
    && var (r, called) := TextChain(es, text, modified, flags, hs);
       if k == |es| then
         r.Delivered? && r.text == TextGiven(es, k, text, flags, hs).value && called == Numbers(Filter(es, ListensTo(flags)))
       else
         && called == Numbers(Filter(es[..k + 1], ListensTo(flags))) && TextGiven(es, k + 1, text, flags, hs).None?
         && if TextInterruptedAt(es, k, text, flags, hs) then r == TextRaised
            else r.Suppressed? && r.text == NoticeOnly(flags.success) && r.hookId == es[k].spec.hookId
                 && r.source == es[k].owner.source && SuppressesAt(es, k, text, flags, hs, r.reason)
  }

  lemma TextStops(es: seq<Entry>, text: Text, modified: bool, flags: Flags, hs: Handlers)
    requires es != [] && !TextStep(es[0], text, modified, flags, hs).Delivered?
    ensures TextEndsAt(es, 0, text, modified, flags, hs)
  {
    HeardFirst(es, 1, flags);
    assert es[1..1] == [];
  }

  lemma TextGoesOn(es: seq<Entry>, j: nat, text: Text, modified: bool, flags: Flags, hs: Handlers)
    requires es != [] && TextStep(es[0], text, modified, flags, hs).Delivered?
    requires var r := TextStep(es[0], text, modified, flags, hs); TextEndsAt(es[1..], j, r.text, r.modified, flags, hs)
    ensures TextEndsAt(es, j + 1, text, modified, flags, hs)
  {
    var r := TextStep(es[0], text, modified, flags, hs);
    assert r.text == TextStep(es[0], text, false, flags, hs).text;
    TextShift(es, j + 1, text, flags, hs);
    if j == |es| - 1 {
      assert es[..|es|] == es && es[1..|es|] == es[1..];
      HeardFirst(es, |es|, flags);
    } else {
      TextGoesOnTo(es, j, text, flags, hs);
      assert es[1..][..j + 1] == es[1..j + 2];
      HeardFirst(es, j + 2, flags);
    }
  }

  /** The first handler having handed a text on, a later one is given what it would be without the first. */
  lemma TextGoesOnTo(es: seq<Entry>, j: nat, text: Text, flags: Flags, hs: Handlers)
    requires j < |es| - 1 && TextStep(es[0], text, false, flags, hs).Delivered?
    ensures var t := TextStep(es[0], text, false, flags, hs).text;
            && TextGiven(es, j + 1, text, flags, hs) == TextGiven(es[1..], j, t, flags, hs)
            && TextGiven(es, j + 2, text, flags, hs) == TextGiven(es[1..], j + 1, t, flags, hs)
  {
    TextShift(es, j + 1, text, flags, hs);
    TextShift(es, j + 2, text, flags, hs);
  }

  lemma {:induction false} TextEnds(es: seq<Entry>, text: Text, modified: bool, flags: Flags, hs: Handlers) returns (k: nat)
    ensures TextEndsAt(es, k, text, modified, flags, hs)
    decreases |es|
  {
    if es == [] {
      k := 0;
    } else {
      var r := TextStep(es[0], text, modified, flags, hs);
      if r.Delivered? {
        var j := TextEnds(es[1..], r.text, r.modified, flags, hs);
        TextGoesOn(es, j, text, modified, flags, hs);
        k := j + 1;
      } else {
        TextStops(es, text, modified, flags, hs);
        k := 0;
      }
    }
  }

  lemma {:induction false} TextGivenBefore(es: seq<Entry>, j: nat, k: nat, text: Text, flags: Flags, hs: Handlers)
    requires j <= k <= |es| && TextGiven(es, k, text, flags, hs).Some?
    ensures TextGiven(es, j, text, flags, hs).Some?
    decreases k
  {
    if j < k { TextGivenBefore(es, j, k - 1, text, flags, hs); }
  }

  lemma OneEndsText(es: seq<Entry>, j: nat, k: nat, text: Text, flags: Flags, hs: Handlers)
    requires j < |es| && TextGiven(es, j, text, flags, hs).Some? && TextGiven(es, j + 1, text, flags, hs).None?
    requires k <= |es| && TextGiven(es, k, text, flags, hs).Some? && (k == |es| || TextGiven(es, k + 1, text, flags, hs).None?)
    ensures j == k
  {
    if j < k { TextGivenBefore(es, j + 1, k, text, flags, hs); }
    if k < j { TextGivenBefore(es, k + 1, j, text, flags, hs); }
  }

  /** The text is suppressed exactly when a handler that hears of it suppresses it or fails. Then only the notice is
      delivered, in that handler's name and for its reason, and of the handlers exactly those up to it that listen are
      called. */
  lemma SuppressedExactly(es: seq<Entry>, text: Text, flags: Flags, hs: Handlers)
    ensures TextChain(es, text, false, flags, hs).0.Suppressed? <==> exists k: nat, reason :: SuppressesAt(es, k, text, flags, hs, reason)
    ensures forall k: nat, reason | SuppressesAt(es, k, text, flags, hs, reason) ::
              TextChain(es, text, false, flags, hs) ==
              (Suppressed(NoticeOnly(flags.success), reason, es[k].spec.hookId, es[k].owner.source),
               Numbers(Filter(es[..k + 1], ListensTo(flags))))
  {
    var n := TextEnds(es, text, false, flags, hs);
    forall k: nat, reason | SuppressesAt(es, k, text, flags, hs, reason)
      ensures k == n && n < |es| && TextChain(es, text, false, flags, hs).0.Suppressed? && TextChain(es, text, false, flags, hs).0.reason == reason
    {
      OneEndsText(es, k, n, text, flags, hs);
    }
    if TextChain(es, text, false, flags, hs).0.Suppressed? {
      assert SuppressesAt(es, n, text, flags, hs, TextChain(es, text, false, flags, hs).0.reason);
    }
  }

  /** The text is delivered exactly when no handler ends the chain, and it is then what the last one hands on; it raises
      exactly when a handler that hears of the text is interrupted. */
  lemma DeliveredExactly(es: seq<Entry>, text: Text, flags: Flags, hs: Handlers)
    ensures TextChain(es, text, false, flags, hs).0.Delivered? <==> TextGiven(es, |es|, text, flags, hs).Some?
    ensures TextGiven(es, |es|, text, flags, hs).Some? ==>
              && TextChain(es, text, false, flags, hs).0.text == TextGiven(es, |es|, text, flags, hs).value
              && TextChain(es, text, false, flags, hs).1 == Numbers(Filter(es, ListensTo(flags)))
    ensures TextChain(es, text, false, flags, hs).0.TextRaised? <==> exists k: nat :: TextInterruptedAt(es, k, text, flags, hs)
  {
    var n := TextEnds(es, text, false, flags, hs);
    if n < |es| && TextGiven(es, |es|, text, flags, hs).Some? {
      TextGivenBefore(es, n + 1, |es|, text, flags, hs);
      assert false;
    }
    forall k: nat | TextInterruptedAt(es, k, text, flags, hs) ensures k == n && n < |es| {
      OneEndsText(es, k, n, text, flags, hs);
    }
  }

  /** The last replacement is what is delivered, unless a legacy callback changes the text after it. */
  lemma {:induction false} LastReplacementIsDelivered(es: seq<Entry>, k: nat, n: nat, text: Text, flags: Flags, hs: Handlers)
    requires ReplacesAt(es, k, text, flags, hs) && k < n <= |es| && TextGiven(es, n, text, flags, hs).Some?
    requires forall j: nat | k < j < n :: !ReplacesAt(es, j, text, flags, hs) && (es[j].spec.legacy ==> !flags.visible)
    ensures TextGiven(es, n, text, flags, hs) == Some(hs.text(es[k].order, TextGiven(es, k, text, flags, hs).value).value.text)
    decreases n
  {
    if n > k + 1 {
      TextGivenBefore(es, n - 1, n, text, flags, hs);
      LastReplacementIsDelivered(es, k, n - 1, text, flags, hs);
      assert !ReplacesAt(es, n - 1, text, flags, hs);
    }
  }
}
