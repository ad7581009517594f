/** What the ledger knows, in terms of everything that was done to it. */
module LedgerHistory {
  import opened Ordering
  import opened Optional
  import opened ContextResources

  /** The position of the last message that answers this call. */
  ghost predicate AnsweredLast(messages: seq<Message>, id: string, k: nat) {
    && id != "" && k < |messages| && messages[k].role == "tool" && messages[k].id == id
    && forall j | k < j < |messages| :: !(messages[j].role == "tool" && messages[j].id == id)
  }

  /** The last answer to the call is a file reading whose text has this hash. */
  ghost predicate StillShows(hash: string -> string, messages: seq<Message>, id: string, text: string) {
    exists k: nat :: AnsweredLast(messages, id, k) && messages[k].name == Some("read_file")
                     && messages[k].content.Text? && hash(messages[k].content.text) == hash(text)
  }

  /** A registration under this id takes effect. */
  predicate Registers(a: Action, id: string, d: Descriptor, text: string) {
    a == DoRegister(id, d, text) && id != "" && d.start > 0 && d.end >= d.start
  }

  predicate Receives(a: Action, id: string, sources: seq<string>) {
    a == DoReceipt(id, sources) && id != "" && sources != []
  }

  /** The action replaces the registered reading, or makes the ledger drop it. */
  ghost predicate Undoes(hash: string -> string, a: Action, id: string, text: string) {
    match a
    case DoRegister(other, d, _) => other == id && d.start > 0 && d.end >= d.start
    case DoReceipt(other, sources) => other == id && sources != []
    case DoInvalidate(ids) => id in ids
    case DoReconcile(messages) => !StillShows(hash, messages, id, text)
    case DoRotate => true
    case DoClaim(_) => false
  }

  /** The action at `i` registered this reading, and no later one has undone it. */
  ghost predicate Stands(hash: string -> string, actions: seq<Action>, i: nat, id: string, d: Descriptor, text: string) {
    && i < |actions| && Registers(actions[i], id, d, text)
    && forall j | i < j < |actions| :: !Undoes(hash, actions[j], id, text)
  }

  ghost predicate IsAnswer(m: Message, id: string) {
    id != "" && m.role == "tool" && m.id == id
  }

  lemma AnsweredLastSnoc(messages: seq<Message>, m: Message, id: string, k: nat)
    ensures AnsweredLast(messages + [m], id, k) <==>
            if IsAnswer(m, id) then k == |messages| else AnsweredLast(messages, id, k)
  {
    var all := messages + [m];
    assert all[|messages|] == m && forall j | 0 <= j < |messages| :: all[j] == messages[j];
  }

  lemma {:induction false} LastAnswerExact(messages: seq<Message>, id: string)
    ensures forall k: nat | AnsweredLast(messages, id, k) :: LastAnswer(messages, id) == Some(messages[k])
    ensures LastAnswer(messages, id).Some? ==> exists k: nat :: AnsweredLast(messages, id, k)
    decreases |messages|
  {
    if messages != [] {
      var n := |messages| - 1;
      var before, m := messages[..n], messages[n];
      assert messages == before + [m];
      LastAnswerExact(before, id);
      forall k: nat ensures AnsweredLast(messages, id, k) <==> if IsAnswer(m, id) then k == n else AnsweredLast(before, id, k) {
        AnsweredLastSnoc(before, m, id, k);
      }
      if IsAnswer(m, id) {
        assert AnsweredLast(messages, id, n);
      } else if LastAnswer(messages, id).Some? {
        var k: nat :| AnsweredLast(before, id, k);
        assert AnsweredLast(messages, id, k);
      }
    }
  }

  lemma AliveIff(hash: string -> string, s: Source, messages: seq<Message>, text: string)
    requires s.hash == hash(text)
    ensures Alive(hash, s, messages) <==> StillShows(hash, messages, s.id, text)
  {
    LastAnswerExact(messages, s.id);
    if Alive(hash, s, messages) {
      var k: nat :| AnsweredLast(messages, s.id, k);
    }
  }

  lemma {:induction false} RunSnoc(l: Ledger, hash: string -> string, actions: seq<Action>, a: Action)
    ensures Run(l, hash, actions + [a]) == Step(Run(l, hash, actions), hash, a)
    decreases |actions|
  {
    if actions == [] {
      assert [] + [a] == [a] && [a][1..] == [];
    } else {
      assert (actions + [a])[1..] == actions[1..] + [a];
      RunSnoc(Step(l, hash, actions[0]), hash, actions[1..], a);
    }
  }

  /** The ledger's sources are exactly the registrations that stand, each with its own range and text. */
  ghost predicate Knows(l: Ledger, hash: string -> string, actions: seq<Action>) {
    && (forall id | id in l.sources :: l.sources[id].id == id && Remembered(l, hash, actions, id))
    && (forall i: nat, id, d, text | Stands(hash, actions, i, id, d, text) :: id in l.sources && l.sources[id] == Source(id, d, hash(text)))
  }

  ghost predicate Remembered(l: Ledger, hash: string -> string, actions: seq<Action>, id: string)
    requires id in l.sources
  {
    exists i: nat, d, text :: Stands(hash, actions, i, id, d, text) && l.sources[id] == Source(id, d, hash(text))
  }

  lemma StandsSnoc(hash: string -> string, actions: seq<Action>, a: Action, i: nat, id: string, d: Descriptor, text: string)
    ensures Stands(hash, actions + [a], i, id, d, text) <==>
            (i == |actions| && Registers(a, id, d, text)) || (Stands(hash, actions, i, id, d, text) && !Undoes(hash, a, id, text))
  {
    var all := actions + [a];
    assert all[|actions|] == a;
    assert i < |actions| ==> all[i] == actions[i];
    if Stands(hash, all, i, id, d, text) && i < |actions| {
      forall j | i < j < |actions| ensures !Undoes(hash, actions[j], id, text) { assert all[j] == actions[j]; }
    }
  }

  /** What one action does to one source: it stays if it is not undone, and a new one comes only by registering. */
  lemma StepSource(l: Ledger, hash: string -> string, a: Action, id: string, d: Descriptor, text: string)
    requires id in l.sources && l.sources[id] == Source(id, d, hash(text)) && id != ""
    ensures !Undoes(hash, a, id, text) ==> id in Step(l, hash, a).sources && Step(l, hash, a).sources[id] == l.sources[id]
    ensures Undoes(hash, a, id, text) && !a.DoRegister? ==> id !in Step(l, hash, a).sources
  {
    if a.DoReconcile? { AliveIff(hash, l.sources[id], a.messages, text); }
  }

  lemma StepRegisters(l: Ledger, hash: string -> string, a: Action, id: string)
    ensures forall d, text | Registers(a, id, d, text) ::
              id in Step(l, hash, a).sources && Step(l, hash, a).sources[id] == Source(id, d, hash(text))
    ensures id !in l.sources && (forall d, text :: !Registers(a, id, d, text)) ==> id !in Step(l, hash, a).sources
  {
    if a.DoRegister? && a.id == id && id != "" && a.d.start > 0 && a.d.end >= a.d.start {
      assert Registers(a, id, a.d, a.text);
    }
  }

  lemma StepKnows(l: Ledger, hash: string -> string, actions: seq<Action>, a: Action)
    requires Knows(l, hash, actions)
    ensures Knows(Step(l, hash, a), hash, actions + [a])
  {
    var l' := Step(l, hash, a);
    forall id | id in l'.sources ensures l'.sources[id].id == id && Remembered(l', hash, actions + [a], id) {
      StepRegisters(l, hash, a, id);
      if d, text :| Registers(a, id, d, text) {
        StandsSnoc(hash, actions, a, |actions|, id, d, text);
        assert Stands(hash, actions + [a], |actions|, id, d, text);
      } else {
        assert id in l.sources;
        var i: nat, d, text :| Stands(hash, actions, i, id, d, text) && l.sources[id] == Source(id, d, hash(text));
        if a.DoRegister? && Undoes(hash, a, id, text) {
          assert Registers(a, id, a.d, a.text);
          assert false;
        }
        StepSource(l, hash, a, id, d, text);
        StandsSnoc(hash, actions, a, i, id, d, text);
        assert Stands(hash, actions + [a], i, id, d, text);
      }
    }
    forall i: nat, id, d, text | Stands(hash, actions + [a], i, id, d, text)
      ensures id in l'.sources && l'.sources[id] == Source(id, d, hash(text))
    {
      StandsSnoc(hash, actions, a, i, id, d, text);
      StepRegisters(l, hash, a, id);
      if i < |actions| {
        assert Stands(hash, actions, i, id, d, text);
        StepSource(l, hash, a, id, d, text);
      }
    }
  }

  /** Over every run: an id is a source exactly while some registration of it stands, and then with the range and the
      text that were registered. */
  lemma {:induction false} SourcesExactly(hash: string -> string, actions: seq<Action>)
    ensures Knows(Run(Initial(), hash, actions), hash, actions)
    decreases |actions|
  {
    if actions != [] {
      var n := |actions| - 1;
      assert actions == actions[..n] + [actions[n]];
      SourcesExactly(hash, actions[..n]);
      RunSnoc(Initial(), hash, actions[..n], actions[n]);
      StepKnows(Run(Initial(), hash, actions[..n]), hash, actions[..n], actions[n]);
    }
  }

  /** A line of this content version was read by a registration that stands, and whose text is still shown. */
  ghost predicate ShownNow(hash: string -> string, actions: seq<Action>, messages: seq<Message>, d: Descriptor, line: int) {
    exists i: nat, id, read, text ::
      && Stands(hash, actions, i, id, read, text) && StillShows(hash, messages, id, text)
      && read.resource == d.resource && read.version == d.version && read.start <= line <= read.end
  }

  lemma ShownIsLive(hash: string -> string, actions: seq<Action>, messages: seq<Message>, d: Descriptor, line: int)
    ensures ShownNow(hash, actions, messages, d, line) <==> LineIsLive(Run(Initial(), hash, actions), hash, messages, d, line)
  {
    var l := Run(Initial(), hash, actions);
    SourcesExactly(hash, actions);
    if i: nat, id, read, text :|
      && Stands(hash, actions, i, id, read, text) && StillShows(hash, messages, id, text)
      && read.resource == d.resource && read.version == d.version && read.start <= line <= read.end
    {
      AliveIff(hash, l.sources[id], messages, text);
      assert LiveAt(l, hash, messages, d, id, line);
    }
    if id :| LiveAt(l, hash, messages, d, id, line) {
      assert Remembered(l, hash, actions, id);
      var i: nat, read, text :| Stands(hash, actions, i, id, read, text) && l.sources[id] == Source(id, read, hash(text));
      AliveIff(hash, l.sources[id], messages, text);
      assert Stands(hash, actions, i, id, read, text) && StillShows(hash, messages, id, text);
    }
  }

  /** After every run a query is answered exactly when every requested line lies in the range of a reading that was
      registered for the same resource and version, stands, and is still shown word for word by its message. */
  lemma AnsweredIffShown(hash: string -> string, actions: seq<Action>, messages: seq<Message>, d: Descriptor, order: seq<Source>)
    requires d.start > 0 && d.end >= d.start
    requires IsOrder(order, Reconcile(Run(Initial(), hash, actions), hash, messages).sources, d)
    ensures Selected(order, d) != [] <==> forall line | d.start <= line <= d.end :: ShownNow(hash, actions, messages, d, line)
  {
    var l := Run(Initial(), hash, actions);
    RunKeepsInv(Initial(), hash, actions);
    CoverageExact(l, hash, messages, d, order);
    forall line ensures ShownNow(hash, actions, messages, d, line) <==> LineIsLive(l, hash, messages, d, line) {
      ShownIsLive(hash, actions, messages, d, line);
    }
  }

  // ---- Reloads ----

  /** The action at `i` claimed this version, and the epoch has not rotated since. */
  ghost predicate ClaimStands(actions: seq<Action>, i: nat, resource: string, version: string) {
    && i < |actions| && actions[i].DoClaim? && actions[i].d.resource == resource && actions[i].d.version == version
    && forall j | i < j < |actions| :: !actions[j].DoRotate?
  }

  ghost predicate ClaimedBefore(actions: seq<Action>, resource: string, version: string) {
    exists i: nat :: ClaimStands(actions, i, resource, version)
  }

  lemma ClaimStandsSnoc(actions: seq<Action>, a: Action, i: nat, resource: string, version: string)
    ensures ClaimStands(actions + [a], i, resource, version) <==>
            || (i == |actions| && a.DoClaim? && a.d.resource == resource && a.d.version == version)
            || (ClaimStands(actions, i, resource, version) && !a.DoRotate?)
  {
    var all := actions + [a];
    assert all[|actions|] == a && forall j | 0 <= j < |actions| :: all[j] == actions[j];
  }

  lemma ClaimedSnoc(actions: seq<Action>, a: Action, resource: string, version: string)
    ensures ClaimedBefore(actions + [a], resource, version) <==>
            || (a.DoClaim? && a.d.resource == resource && a.d.version == version)
            || (ClaimedBefore(actions, resource, version) && !a.DoRotate?)
  {
    forall i: nat
      ensures ClaimStands(actions + [a], i, resource, version) <==>
              || (i == |actions| && a.DoClaim? && a.d.resource == resource && a.d.version == version)
              || (ClaimStands(actions, i, resource, version) && !a.DoRotate?)
    {
      ClaimStandsSnoc(actions, a, i, resource, version);
    }
    assert a.DoClaim? && a.d.resource == resource && a.d.version == version ==>
             ClaimStands(actions + [a], |actions|, resource, version);
  }

  lemma {:induction false} RefreshedExactly(hash: string -> string, actions: seq<Action>, resource: string, version: string)
    ensures (resource, version) in Run(Initial(), hash, actions).refreshed <==> ClaimedBefore(actions, resource, version)
    decreases |actions|
  {
    if actions != [] {
      var n := |actions| - 1;
      assert actions == actions[..n] + [actions[n]];
      RunSnoc(Initial(), hash, actions[..n], actions[n]);
      RefreshedExactly(hash, actions[..n], resource, version);
      ClaimedSnoc(actions[..n], actions[n], resource, version);
    }
  }

  /** After every run a forced reload is granted exactly when the version was not claimed since the last rotation. */
  lemma GrantedIff(hash: string -> string, actions: seq<Action>, d: Descriptor)
    ensures Claim(Run(Initial(), hash, actions), d).1 <==> !ClaimedBefore(actions, d.resource, d.version)
  {
    RefreshedExactly(hash, actions, d.resource, d.version);
  }

  // ---- Receipts and epochs ----

  /** The action replaces the receipt, or makes the ledger drop it. */
  ghost predicate Voids(a: Action, id: string) {
    match a
    case DoRegister(other, d, _) => other == id && id != "" && d.start > 0 && d.end >= d.start
    case DoReceipt(other, sources) => other == id && id != "" && sources != []
    case DoReconcile(messages) => forall k: nat :: !AnsweredLast(messages, id, k)
    case DoRotate => true
    case DoInvalidate(_) => false
    case DoClaim(_) => false
  }

  /** The action at `i` left this receipt, and no later one has voided it. */
  ghost predicate Held(actions: seq<Action>, i: nat, id: string, sources: seq<string>) {
    i < |actions| && Receives(actions[i], id, sources) && forall j | i < j < |actions| :: !Voids(actions[j], id)
  }

  /** `r` lists the distinct items of `s` in the order in which they first occur. */
  ghost predicate FirstsOf(r: seq<string>, s: seq<string>) {
    && (forall x :: x in r <==> x in s)
    && (forall j, k | 0 <= j < k < |r| :: r[j] != r[k] && exists i :: 0 <= i < |s| && s[i] == r[j] && r[k] !in s[..i])
  }

  lemma {:induction false} FirstsInOrder(s: seq<string>)
    ensures FirstsOf(FirstOccurrences(s), s)
    decreases |s|
  {
    if s != [] {
      var n := |s| - 1;
      var before, r := s[..n], FirstOccurrences(s);
      var r0 := FirstOccurrences(before);
      FirstsInOrder(before);
      forall j, k | 0 <= j < k < |r| ensures exists i :: 0 <= i < |s| && s[i] == r[j] && r[k] !in s[..i] {
        if k < |r0| {
          var i :| 0 <= i < |before| && before[i] == r0[j] && r0[k] !in before[..i];
          assert s[i] == r[j] && s[..i] == before[..i];
        } else {
          assert r[j] in before;
          var i :| 0 <= i < n && before[i] == r[j];
          assert s[i] == r[j] && r[k] !in before;
          assert forall x | x in s[..i] :: x in before;
        }
      }
    }
  }

  ghost predicate HasReceipt(actions: seq<Action>, id: string, kept: seq<string>) {
    exists i: nat, sources :: Held(actions, i, id, sources) && kept == FirstOccurrences(sources)
  }

  ghost predicate KeepsReceipts(l: Ledger, actions: seq<Action>) {
    forall id, kept :: (id in l.receipts && l.receipts[id] == kept) <==> HasReceipt(actions, id, kept)
  }

  lemma HeldSnoc(actions: seq<Action>, a: Action, i: nat, id: string, sources: seq<string>)
    ensures Held(actions + [a], i, id, sources) <==>
            (i == |actions| && Receives(a, id, sources)) || (Held(actions, i, id, sources) && !Voids(a, id))
  {
    var all := actions + [a];
    assert all[|actions|] == a;
    assert i < |actions| ==> all[i] == actions[i];
    if Held(all, i, id, sources) && i < |actions| {
      forall j | i < j < |actions| ensures !Voids(actions[j], id) { assert all[j] == actions[j]; }
    }
  }

  lemma HasReceiptSnoc(actions: seq<Action>, a: Action, id: string, kept: seq<string>)
    ensures HasReceipt(actions + [a], id, kept) <==>
            || (exists sources :: Receives(a, id, sources) && kept == FirstOccurrences(sources))
            || (HasReceipt(actions, id, kept) && !Voids(a, id))
  {
    if i: nat, sources :| Held(actions + [a], i, id, sources) && kept == FirstOccurrences(sources) {
      HeldSnoc(actions, a, i, id, sources);
    }
    if sources :| Receives(a, id, sources) && kept == FirstOccurrences(sources) {
      HeldSnoc(actions, a, |actions|, id, sources);
      assert Held(actions + [a], |actions|, id, sources);
    }
    if HasReceipt(actions, id, kept) && !Voids(a, id) {
      var i: nat, sources :| Held(actions, i, id, sources) && kept == FirstOccurrences(sources);
      HeldSnoc(actions, a, i, id, sources);
      assert Held(actions + [a], i, id, sources);
    }
  }

  lemma StepReceipt(l: Ledger, hash: string -> string, a: Action, id: string, kept: seq<string>)
    requires Inv(l, hash)
    ensures (id in Step(l, hash, a).receipts && Step(l, hash, a).receipts[id] == kept) <==>
            || (exists sources :: Receives(a, id, sources) && kept == FirstOccurrences(sources))
            || (id in l.receipts && l.receipts[id] == kept && !Voids(a, id))
  {
    if a.DoReceipt? && a.id == id && id != "" && a.sources != [] {
      assert Receives(a, id, a.sources);
    } else if a.DoReconcile? {
      LastAnswerExact(a.messages, id);
      if LastAnswer(a.messages, id).Some? {
        var k: nat :| AnsweredLast(a.messages, id, k);
      }
    }
  }

  /** Over every run: a receipt is held exactly while one left for the call has not been replaced or dropped, and it
      names the distinct sources it was left with, as they first came. */
  lemma {:induction false} ReceiptsExactly(hash: string -> string, actions: seq<Action>)
    ensures KeepsReceipts(Run(Initial(), hash, actions), actions)
    decreases |actions|
  {
    if actions != [] {
      var n := |actions| - 1;
      var l := Run(Initial(), hash, actions[..n]);
      assert actions == actions[..n] + [actions[n]];
      ReceiptsExactly(hash, actions[..n]);
      RunSnoc(Initial(), hash, actions[..n], actions[n]);
      RunKeepsInv(Initial(), hash, actions[..n]);
      forall id, kept ensures (id in Step(l, hash, actions[n]).receipts && Step(l, hash, actions[n]).receipts[id] == kept)
                              <==> HasReceipt(actions, id, kept) {
        StepReceipt(l, hash, actions[n], id, kept);
        HasReceiptSnoc(actions[..n], actions[n], id, kept);
      }
    } else {
      forall id, kept ensures !HasReceipt(actions, id, kept) {}
    }
  }

  ghost function Rotations(actions: seq<Action>): nat {
    if actions == [] then 0 else Rotations(actions[1..]) + if actions[0].DoRotate? then 1 else 0
  }

  /** The epoch counts the rotations. */
  lemma {:induction false} EpochCountsRotations(l: Ledger, hash: string -> string, actions: seq<Action>)
    ensures Run(l, hash, actions).epoch == l.epoch + Rotations(actions)
    decreases |actions|
  {
    if actions != [] { EpochCountsRotations(Step(l, hash, actions[0]), hash, actions[1..]); }
  }

  // ---- Which sources are named ----

  ghost predicate AgreeTo(a: string, b: string, p: nat) {
    p <= |a| && p <= |b| && forall i | 0 <= i < p :: a[i] == b[i]
  }

  /** The two texts agree up to the place where the first one ends or has the smaller character. */
  ghost predicate ComesFirst(a: string, b: string) {
    exists p: nat :: AgreeTo(a, b, p) && p < |b| && (p < |a| ==> a[p] < b[p])
  }

  lemma {:induction false} StringLeIff(a: string, b: string)
    ensures StringLe(a, b) <==> a == b || ComesFirst(a, b)
  {
    if a != "" && b != "" && a[0] == b[0] {
      var s, t := a[1..], b[1..];
      StringLeIff(s, t);
      assert a == [a[0]] + s && b == [b[0]] + t;
      if p: nat :| AgreeTo(s, t, p) && p < |t| && (p < |s| ==> s[p] < t[p]) {
        assert AgreeTo(a, b, p + 1);
      }
      if p: nat :| AgreeTo(a, b, p) && p < |b| && (p < |a| ==> a[p] < b[p]) {
        assert p > 0 && AgreeTo(s, t, p - 1);
      }
    } else if b != "" {
      assert AgreeTo(a, b, 0);
    }
  }

  /** Candidates stand by their first line, the longer one first where it is the same, and by id where both are. */
  lemma CandidatesInOrder(order: seq<Source>, sources: map<string, Source>, d: Descriptor, j: nat, k: nat)
    requires IsOrder(order, sources, d) && j < k < |order|
    ensures var x, y := order[j], order[k];
            || x.range.start < y.range.start
            || (x.range.start == y.range.start && x.range.end > y.range.end)
            || (x.range.start == y.range.start && x.range.end == y.range.end && ComesFirst(x.id, y.id))
  {
    assert Before(order[j], order[k]);
    StringLeIff(order[j].id, order[k].id);
  }

  /** Before the `k`-th candidate the lines up to the last requested one are not all covered, and it reaches further
      than the request's beginning and every candidate before it. */
  ghost predicate ReachesFurther(order: seq<Source>, k: nat, first: int, last: int) {
    && k < |order| && order[k].range.end >= first
    && (forall j | 0 <= j < k :: order[j].range.end < order[k].range.end && order[j].range.end < last)
  }

  lemma {:induction false} SweepPicks(order: seq<Source>, cursor: int, last: int, k: nat)
    requires cursor <= last && k < |order| && Sweep(order, cursor, last).Some?
    requires forall i, j | 0 <= i < j < |order| :: order[i].id != order[j].id
    ensures order[k] in Sweep(order, cursor, last).value <==> ReachesFurther(order, k, cursor, last)
    decreases |order|
  {
    var t, end := order[1..], order[0].range.end;
    var next := if end < cursor then cursor else end + 1;
    assert forall j | 0 <= j < |t| :: t[j] == order[j + 1];
    if next <= last {
      SweepChains(t, next, last);
      assert order[0] !in t;
      if k > 0 {
        SweepPicks(t, next, last, k - 1);
        assert ReachesFurther(t, k - 1, next, last) <==> ReachesFurther(order, k, cursor, last) by {
          if ReachesFurther(order, k, cursor, last) {
            forall j | 0 <= j < k - 1 ensures t[j].range.end < t[k - 1].range.end && t[j].range.end < last {
              assert order[j + 1] == t[j];
            }
          }
          if ReachesFurther(t, k - 1, next, last) {
            forall j | 0 <= j < k ensures order[j].range.end < order[k].range.end && order[j].range.end < last {
              if j > 0 { assert order[j] == t[j - 1]; }
            }
          }
        }
      }
    } else {
      assert Sweep(order, cursor, last).value == [order[0]] + [] == [order[0]];
      if k > 0 { assert order[0] != order[k] && order[0].range.end >= last; }
    }
  }

  /** The answer names, in their order, exactly the candidates that reach further than all before them until the
      request is covered. */
  lemma NamedIff(order: seq<Source>, sources: map<string, Source>, d: Descriptor, k: nat)
    requires IsOrder(order, sources, d) && d.start <= d.end && k < |order| && Selected(order, d) != []
    ensures order[k].id in Selected(order, d) <==> ReachesFurther(order, k, d.start, d.end)
  {
    var picked := Sweep(order, d.start, d.end).value;
    SweepPicks(order, d.start, d.end, k);
    SweepChains(order, d.start, d.end);
    if order[k].id in Ids(picked) {
      var i :| 0 <= i < |picked| && picked[i].id == order[k].id;
      assert picked[i] in order;
      var m :| 0 <= m < |order| && order[m] == picked[i];
      assert m == k;
    }
    if order[k] in picked {
      var i :| 0 <= i < |picked| && picked[i] == order[k];
      assert Ids(picked)[i] == order[k].id;
    }
  }
}
