/** The ledger of file ranges whose complete text is still in the model's history, and the sweep that
    decides whether those ranges cover a requested one. */
module ContextResources {
  import opened Ordering
  import opened Optional

  /** A resource identity, its content version, and the 1-based inclusive line range that was read. */
  datatype Descriptor = Descriptor(resource: string, version: string, start: int, end: int) {
    predicate HasContent() {
      start > 0 && end >= start
    }

    predicate Matches(other: Descriptor) {
      resource == other.resource && version == other.version
    }
  }

  datatype Source = Source(id: string, range: Descriptor, hash: string)

  datatype Content = Text(text: string) | Blocks

  /** `id` is empty when the message answers no tool call. */
  datatype Message = Message(role: string, id: string, name: Option<string>, content: Content)

  // ---- The sweep ----

  predicate StringLe(a: string, b: string) {
    a == "" || (b != "" && (a[0] < b[0] || (a[0] == b[0] && StringLe(a[1..], b[1..]))))
  }

  lemma {:induction false} StringLeTotal(a: string, b: string)
    ensures StringLe(a, b) || StringLe(b, a)
    ensures StringLe(a, b) && StringLe(b, a) ==> a == b
  {
    if a != "" && b != "" && a[0] == b[0] {
      StringLeTotal(a[1..], b[1..]);
      assert a == [a[0]] + a[1..] && b == [b[0]] + b[1..];
    }
  }

  lemma {:induction false} StringLeTransitive(a: string, b: string, c: string)
    requires StringLe(a, b) && StringLe(b, c)
    ensures StringLe(a, c)
  {
    if a != "" && a[0] == b[0] && b[0] == c[0] {
      StringLeTransitive(a[1..], b[1..], c[1..]);
    }
  }

  /** Earlier start first, then the longer range, then the smaller id. */
  predicate Before(x: Source, y: Source) {
    || x.range.start < y.range.start
    || (x.range.start == y.range.start
        && (x.range.end > y.range.end || (x.range.end == y.range.end && StringLe(x.id, y.id))))
  }

  lemma BeforeIsTotal()
    ensures TotalPreorder(Before)
    ensures forall x, y | Before(x, y) && Before(y, x) :: x.id == y.id
  {
    forall x: Source, y: Source
      ensures Before(x, y) || Before(y, x)
      ensures Before(x, y) && Before(y, x) ==> x.id == y.id
    {
      StringLeTotal(x.id, y.id);
    }
    forall x: Source, y: Source, z: Source | Before(x, y) && Before(y, z) ensures Before(x, z) {
      if StringLe(x.id, y.id) && StringLe(y.id, z.id) { StringLeTransitive(x.id, y.id, z.id); }
    }
  }

  /** The sources picked from an ordered list to cover the lines `cursor..last`, if the list covers them. */
  function Sweep(order: seq<Source>, cursor: int, last: int): Option<seq<Source>> {
    if order == [] then None
    else
      var range := order[0].range;
      if range.end < cursor then Sweep(order[1..], cursor, last)
      else if range.start > cursor then None
      else Prepend([order[0]], if range.end + 1 > last then Some([]) else Sweep(order[1..], range.end + 1, last))
  }

  function Prepend(picked: seq<Source>, rest: Option<seq<Source>>): Option<seq<Source>> {
    if rest.None? then None else Some(picked + rest.value)
  }

  predicate Covers(s: Source, line: int) {
    s.range.start <= line <= s.range.end
  }

  ghost predicate LineCovered(sources: seq<Source>, line: int) {
    exists s :: s in sources && Covers(s, line)
  }

  ghost predicate AllCovered(sources: seq<Source>, first: int, last: int) {
    forall line | first <= line <= last :: LineCovered(sources, line)
  }

  /** Each range meets the previous one and reaches further; only the last one reaches `last`. */
  ghost predicate Chain(picked: seq<Source>, first: int, last: int)
    decreases |picked|
  {
    && picked != []
    && Covers(picked[0], first)
    && if |picked| == 1 then last <= picked[0].range.end
       else picked[0].range.end < last && Chain(picked[1..], picked[0].range.end + 1, last)
  }

  /** Whatever the sweep picks chains up to the last line. */
  lemma {:induction false} SweepChains(order: seq<Source>, cursor: int, last: int)
    requires cursor <= last && Sweep(order, cursor, last).Some?
    ensures Chain(Sweep(order, cursor, last).value, cursor, last)
    ensures forall s | s in Sweep(order, cursor, last).value :: s in order
    decreases |order|
  {
    var range, t := order[0].range, order[1..];
    if range.end < cursor {
      SweepChains(t, cursor, last);
    } else if range.end + 1 <= last {
      SweepChains(t, range.end + 1, last);
      var rest := Sweep(t, range.end + 1, last).value;
      assert ([order[0]] + rest)[1..] == rest;
    }
  }

  lemma {:induction false} ChainCovers(picked: seq<Source>, first: int, last: int)
    requires Chain(picked, first, last)
    ensures AllCovered(picked, first, last)
    ensures forall j, k | 0 <= j < k < |picked| :: picked[j].range.end < picked[k].range.end
    decreases |picked|
  {
    if |picked| > 1 {
      var t := picked[1..];
      ChainCovers(t, picked[0].range.end + 1, last);
      forall line | first <= line <= last ensures LineCovered(picked, line) {
        if line <= picked[0].range.end {
          assert picked[0] in picked && Covers(picked[0], line);
        } else {
          assert LineCovered(t, line);
          var s :| s in t && Covers(s, line);
          assert s in picked;
        }
      }
      assert t[0].range.end >= picked[0].range.end + 1;
    } else {
      forall line | first <= line <= last ensures LineCovered(picked, line) {
        assert picked[0] in picked && Covers(picked[0], line);
      }
    }
  }

  /** An ordered list that covers every line is never given up on. */
  lemma {:induction false} SweepComplete(order: seq<Source>, cursor: int, last: int)
    requires SortedBy(order, Before) && cursor <= last && AllCovered(order, cursor, last)
    ensures Sweep(order, cursor, last).Some?
    decreases |order|
  {
    assert LineCovered(order, cursor);
    var s :| s in order && Covers(s, cursor);
    var range, t := order[0].range, order[1..];
    var k :| 0 <= k < |order| && order[k] == s;
    assert k > 0 ==> Before(order[0], order[k]);
    assert range.start <= cursor;
    var next := if range.end < cursor then cursor else range.end + 1;
    if next <= last {
      forall line | next <= line <= last ensures LineCovered(t, line) {
        assert LineCovered(order, line);
        var u :| u in order && Covers(u, line);
        assert u in t;
      }
      SweepComplete(t, next, last);
    }
  }

  /** The sweep succeeds exactly when every requested line lies in some listed range. */
  lemma SweepExact(order: seq<Source>, first: int, last: int)
    requires SortedBy(order, Before) && first <= last
    ensures Sweep(order, first, last).Some? <==> AllCovered(order, first, last)
  {
    if Sweep(order, first, last).Some? {
      var picked := Sweep(order, first, last).value;
      SweepChains(order, first, last);
      ChainCovers(picked, first, last);
      forall line | first <= line <= last ensures LineCovered(order, line) {
        assert LineCovered(picked, line);
        var s :| s in picked && Covers(s, line);
        assert s in order;
      }
    }
    if AllCovered(order, first, last) { SweepComplete(order, first, last); }
  }

  // ---- The ledger ----

  /** `bodies` remembers the text each source was registered with; the ledger itself keeps only its hash. */
  datatype Ledger = Ledger(
    epoch: nat,
    sources: map<string, Source>,
    receipts: map<string, seq<string>>,
    refreshed: set<(string, string)>,
    bodies: map<string, string>)

  function Initial(): Ledger {
    Ledger(0, map[], map[], {}, map[])
  }

  function RegisterFullSource(l: Ledger, hash: string -> string, id: string, d: Descriptor, text: string): Ledger {
    if id == "" || !d.HasContent() then l
    else l.(receipts := l.receipts - {id}, sources := l.sources[id := Source(id, d, hash(text))], bodies := l.bodies[id := text])
  }

  /** The distinct items, in the order of their first occurrence. */
  function FirstOccurrences(ids: seq<string>): (r: seq<string>)
    ensures forall x :: x in r <==> x in ids
    ensures forall j, k | 0 <= j < k < |r| :: r[j] != r[k]
  {
    if ids == [] then []
    else
      var r, x := FirstOccurrences(ids[..|ids| - 1]), ids[|ids| - 1];
      assert ids == ids[..|ids| - 1] + [x];
      if x in r then r else r + [x]
  }

  function RegisterReceipt(l: Ledger, id: string, sources: seq<string>): Ledger {
    if id == "" || sources == [] then l
    else l.(sources := l.sources - {id}, receipts := l.receipts[id := FirstOccurrences(sources)])
  }

  function Invalidate(l: Ledger, ids: set<string>): Ledger {
    l.(sources := l.sources - ids)
  }

  predicate Answers(m: Message, id: string) {
    m.role == "tool" && m.id == id && id != ""
  }

  /** The last message that answers this tool call. */
  function LastAnswer(messages: seq<Message>, id: string): Option<Message> {
    if messages == [] then None
    else if Answers(messages[|messages| - 1], id) then Some(messages[|messages| - 1])
    else LastAnswer(messages[..|messages| - 1], id)
  }

  /** The message a source stands for still carries its complete text. */
  predicate Alive(hash: string -> string, s: Source, messages: seq<Message>) {
    var m := LastAnswer(messages, s.id);
    m.Some? && m.value.name == Some("read_file") && m.value.content.Text? && hash(m.value.content.text) == s.hash
  }

  function Reconcile(l: Ledger, hash: string -> string, messages: seq<Message>): Ledger {
    l.(sources := map id | id in l.sources && Alive(hash, l.sources[id], messages) :: l.sources[id],
       receipts := map id | id in l.receipts && LastAnswer(messages, id).Some? :: l.receipts[id])
  }

  function Claim(l: Ledger, d: Descriptor): (Ledger, bool) {
    (l.(refreshed := l.refreshed + {(d.resource, d.version)}), (d.resource, d.version) !in l.refreshed)
  }

  function RotateEpoch(l: Ledger): Ledger {
    Ledger(l.epoch + 1, map[], map[], {}, l.bodies)
  }

  /** The candidates for a request, in sweeping order. */
  ghost predicate IsOrder(order: seq<Source>, sources: map<string, Source>, d: Descriptor) {
    && SortedBy(order, Before)
    && (forall j, k | 0 <= j < k < |order| :: order[j].id != order[k].id)
    && (forall s :: s in order <==> s.id in sources && sources[s.id] == s && s.range.Matches(d))
  }

  function Ids(sources: seq<Source>): (r: seq<string>)
    ensures |r| == |sources| && forall k | 0 <= k < |r| :: r[k] == sources[k].id
  {
    seq(|sources|, k requires 0 <= k < |sources| => sources[k].id)
  }

  function Selected(order: seq<Source>, d: Descriptor): seq<string> {
    var picked := Sweep(order, d.start, d.end);
    if picked.Some? then Ids(picked.value) else []
  }

  ghost predicate Inv(l: Ledger, hash: string -> string) {
    && l.sources.Keys !! l.receipts.Keys
    && (forall id | id in l.sources ::
          && id != "" && l.sources[id].id == id && l.sources[id].range.HasContent()
          && id in l.bodies && l.sources[id].hash == hash(l.bodies[id]))
    && (forall id | id in l.receipts :: l.receipts[id] != [])
  }

  class ContextResourceLedger {
    const hash: string -> string
    var epoch: nat
    var sources: map<string, Source>
    var receipts: map<string, seq<string>>
    var refreshed: set<(string, string)>
    ghost var bodies: map<string, string>

    ghost function View(): Ledger
      reads this
    {
      Ledger(epoch, sources, receipts, refreshed, bodies)
    }

    constructor (hash: string -> string)
      ensures View() == Initial() && this.hash == hash
    {
      this.hash := hash;
      epoch, sources, receipts, refreshed, bodies := 0, map[], map[], {}, map[];
    }

    method Register(id: string, d: Descriptor, text: string)
      modifies this
      ensures View() == RegisterFullSource(old(View()), hash, id, d, text)
    {
      if id == "" || !d.HasContent() {
        return;
      }
      receipts := receipts - {id};
      sources, bodies := sources[id := Source(id, d, hash(text))], bodies[id := text];
    }

    method AddReceipt(id: string, ids: seq<string>)
      modifies this
      ensures View() == RegisterReceipt(old(View()), id, ids)
    {
      var distinct := FirstOccurrences(ids);
      if id == "" || distinct == [] {
        assert ids != [] ==> ids[0] in distinct;
        return;
      }
      sources := sources - {id};
      receipts := receipts[id := distinct];
    }

    method InvalidateSourceIds(ids: seq<string>) returns (gone: seq<string>)
      modifies this`sources
      ensures View() == Invalidate(old(View()), Elements(ids))
      ensures gone == Filter(FirstOccurrences(ids), InMap(old(sources)))
      ensures forall id :: id in gone <==> id in ids && id in old(sources)
    {
      var distinct := FirstOccurrences(ids);
      ghost var before := sources;
      gone := [];
      for k := 0 to |distinct|
        invariant Dropped(before, distinct, k, sources, gone)
      {
        var id := distinct[k];
        DropOne(before, distinct, k, sources, gone);
        if id in sources {
          gone := gone + [id];
        }
        sources := sources - {id};
      }
      assert distinct[..|distinct|] == distinct;
    }

    /** The dictionary of messages that answer a tool call; a later answer replaces an earlier one. */
    static method CollectAnswers(messages: seq<Message>) returns (answers: map<string, Message>)
      ensures IsAnswerMap(answers, messages)
    {
      answers := map[];
      for k := 0 to |messages|
        invariant IsAnswerMap(answers, messages[..k])
      {
        assert messages[..k + 1][..k] == messages[..k];
        if messages[k].role == "tool" && messages[k].id != "" {
          answers := answers[messages[k].id := messages[k]];
        }
      }
      assert messages[..|messages|] == messages;
    }

    method StaleSources(answers: map<string, Message>) returns (stale: seq<string>)
      ensures forall id :: id in stale <==> id in sources && !Lives(hash, sources[id], answers, id)
    {
      stale := [];
      var rest := sources.Keys;
      while rest != {}
        invariant rest <= sources.Keys
        invariant forall id :: id in stale <==> id in sources && id !in rest && !Lives(hash, sources[id], answers, id)
        decreases |rest|
      {
        var id :| id in rest;
        rest := rest - {id};
        if !Lives(hash, sources[id], answers, id) {
          stale := stale + [id];
        }
      }
    }

    /** Drops every source whose message no longer carries its text, and every receipt without a message. */
    method ReconcileWith(messages: seq<Message>) returns (gone: seq<string>)
      requires Inv(View(), hash)
      modifies this
      ensures View() == Reconcile(old(View()), hash, messages)
      ensures forall id :: id in gone <==> id in old(sources) && id !in sources
    {
      var answers := CollectAnswers(messages);
      var stale := StaleSources(answers);
      ReconciledExactly(View(), hash, messages, answers, stale);
      gone := InvalidateSourceIds(stale);
      receipts := map id | id in receipts && id in answers :: receipts[id];
    }

    /** The candidates of a request, sorted as they are collected. */
    method Candidates(d: Descriptor) returns (order: seq<Source>)
      requires Inv(View(), hash)
      ensures IsOrder(order, sources, d)
    {
      order := [];
      var rest := sources.Keys;
      ghost var seen: map<string, Source> := map[];
      while rest != {}
        invariant rest <= sources.Keys && seen.Keys == sources.Keys - rest
        invariant forall id | id in seen :: seen[id] == sources[id]
        invariant IsOrder(order, seen, d)
        decreases |rest|
      {
        var id :| id in rest;
        OrderOneMore(order, seen, sources[id], d);
        if sources[id].range.Matches(d) {
          order := Insert(sources[id], order, Before);
        }
        rest, seen := rest - {id}, seen[id := sources[id]];
      }
      assert seen == sources;
    }

    /** The ids of live sources whose ranges together cover the request, or nothing. */
    method CoveringSourceIds(d: Descriptor, messages: seq<Message>) returns (ids: seq<string>)
      requires Inv(View(), hash)
      modifies this
      ensures View() == Reconcile(old(View()), hash, messages)
      ensures !d.HasContent() ==> ids == []
      ensures d.HasContent() ==> exists order :: IsOrder(order, sources, d) && ids == Selected(order, d)
    {
      ReconcileKeepsInv(View(), hash, messages);
      var gone := ReconcileWith(messages);
      if !d.HasContent() {
        return [];
      }
      var order := Candidates(d);
      ids := PickCover(order, d);
    }

    /** The cursor sweep over the ordered candidates. */
    static method PickCover(order: seq<Source>, d: Descriptor) returns (ids: seq<string>)
      ensures ids == Selected(order, d)
    {
      var cursor := d.start;
      ghost var picked: seq<Source> := [];
      SweepStarts(order, d);
      ids := [];
      for k := 0 to |order|
        invariant ids == Ids(picked) && SweptTo(order, d, k, cursor, picked)
      {
        var range := order[k].range;
        SweepStep(order, d, k, cursor, picked);
        if range.end < cursor {
          continue;
        }
        if range.start > cursor {
          return [];
        }
        assert Ids(picked + [order[k]]) == Ids(picked) + [order[k].id];
        ids, picked := ids + [order[k].id], picked + [order[k]];
        cursor := range.end + 1;
        if cursor > d.end {
          return;
        }
      }
      SweepEnds(order, d, cursor, picked);
      ids := [];
    }

    method ClaimRefreshReload(d: Descriptor) returns (granted: bool)
      modifies this
      ensures (View(), granted) == Claim(old(View()), d)
    {
      var key := (d.resource, d.version);
      if key in refreshed {
        assert refreshed + {key} == refreshed;
        return false;
      }
      refreshed := refreshed + {key};
      granted := true;
    }

    method Rotate()
      modifies this
      ensures View() == RotateEpoch(old(View()))
    {
      epoch, sources, receipts, refreshed := epoch + 1, map[], map[], {};
    }
  }

  function InMap(m: map<string, Source>): string -> bool {
    (id: string) => id in m
  }

  function Elements(ids: seq<string>): set<string> {
    set id | id in ids
  }

  ghost predicate Dropped(before: map<string, Source>, ids: seq<string>, k: nat, after: map<string, Source>, gone: seq<string>) {
    k <= |ids| && after == before - Elements(ids[..k]) && gone == Filter(ids[..k], InMap(before))
  }

  lemma DropOne(before: map<string, Source>, ids: seq<string>, k: nat, after: map<string, Source>, gone: seq<string>)
    requires k < |ids| && Dropped(before, ids, k, after, gone)
    requires forall i, j | 0 <= i < j < |ids| :: ids[i] != ids[j]
    ensures Dropped(before, ids, k + 1, after - {ids[k]}, if ids[k] in after then gone + [ids[k]] else gone)
  {
    var x, done := ids[k], ids[..k];
    assert ids[..k + 1] == done + [x];
    assert x !in done && (x in after <==> x in before);
    assert before - Elements(done + [x]) == after - {x};
    FilterSnoc(done, x, InMap(before));
  }

  ghost predicate SweptTo(order: seq<Source>, d: Descriptor, k: nat, cursor: int, picked: seq<Source>) {
    k <= |order| && Sweep(order, d.start, d.end) == Prepend(picked, Sweep(order[k..], cursor, d.end))
  }

  lemma SweepStarts(order: seq<Source>, d: Descriptor)
    ensures SweptTo(order, d, 0, d.start, [])
  {
    assert order[0..] == order;
    var all := Sweep(order, d.start, d.end);
    if all.Some? { assert [] + all.value == all.value; }
  }

  lemma SweepStep(order: seq<Source>, d: Descriptor, k: nat, cursor: int, picked: seq<Source>)
    requires k < |order| && SweptTo(order, d, k, cursor, picked)
    ensures var s, longer := order[k], picked + [order[k]];
            if s.range.end < cursor then SweptTo(order, d, k + 1, cursor, picked)
            else if s.range.start > cursor then Sweep(order, d.start, d.end) == None
            else if s.range.end + 1 > d.end then Sweep(order, d.start, d.end) == Some(longer)
            else SweptTo(order, d, k + 1, s.range.end + 1, longer)
  {
    var s, rest := order[k], order[k + 1..];
    assert order[k..][0] == s && order[k..][1..] == rest;
    if s.range.start <= cursor <= s.range.end {
      PrependTwice(picked, [s], if s.range.end + 1 > d.end then Some([]) else Sweep(rest, s.range.end + 1, d.end));
    }
  }

  lemma PrependTwice(a: seq<Source>, b: seq<Source>, rest: Option<seq<Source>>)
    ensures Prepend(a, Prepend(b, rest)) == Prepend(a + b, rest)
    ensures Prepend(a + b, Some([])) == Some(a + b)
  {
    assert a + b + [] == a + b;
    if rest.Some? { assert a + (b + rest.value) == a + b + rest.value; }
  }

  lemma SweepEnds(order: seq<Source>, d: Descriptor, cursor: int, picked: seq<Source>)
    requires SweptTo(order, d, |order|, cursor, picked)
    ensures Sweep(order, d.start, d.end) == None
  {
  }

  /** The dictionary of answering messages that a scan of the history builds. */
  ghost predicate IsAnswerMap(answers: map<string, Message>, messages: seq<Message>) {
    forall id :: LastAnswer(messages, id) == if id in answers then Some(answers[id]) else None
  }

  predicate Lives(hash: string -> string, s: Source, answers: map<string, Message>, id: string) {
    && id in answers
    && answers[id].name == Some("read_file")
    && answers[id].content.Text?
    && hash(answers[id].content.text) == s.hash
  }

  lemma ReconciledExactly(l: Ledger, hash: string -> string, messages: seq<Message>, answers: map<string, Message>, stale: seq<string>)
    requires Inv(l, hash) && IsAnswerMap(answers, messages)
    requires forall id :: id in stale <==> id in l.sources && !Lives(hash, l.sources[id], answers, id)
    ensures Reconcile(l, hash, messages) ==
            Invalidate(l, Elements(stale)).(receipts := map id | id in l.receipts && id in answers :: l.receipts[id])
    ensures forall id :: id in Filter(FirstOccurrences(stale), InMap(l.sources)) <==> id in l.sources && id !in Reconcile(l, hash, messages).sources
  {
    var r := Reconcile(l, hash, messages);
    forall id | id in l.sources ensures Lives(hash, l.sources[id], answers, id) == Alive(hash, l.sources[id], messages) {
      assert LastAnswer(messages, id) == if id in answers then Some(answers[id]) else None;
    }
    assert r.sources == l.sources - Elements(stale);
    forall id | id in l.receipts ensures LastAnswer(messages, id).Some? <==> id in answers {
      assert LastAnswer(messages, id) == if id in answers then Some(answers[id]) else None;
    }
    assert r.receipts == map id | id in l.receipts && id in answers :: l.receipts[id];
  }

  lemma OrderOneMore(order: seq<Source>, seen: map<string, Source>, s: Source, d: Descriptor)
    requires IsOrder(order, seen, d) && s.id !in seen
    ensures IsOrder(if s.range.Matches(d) then Insert(s, order, Before) else order, seen[s.id := s], d)
  {
    if s.range.Matches(d) { InsertKeepsOrder(order, seen, s, d); }
  }

  /** Inserting one more candidate keeps the order. */
  lemma InsertKeepsOrder(order: seq<Source>, sources: map<string, Source>, s: Source, d: Descriptor)
    requires IsOrder(order, sources, d) && s.id !in sources && s.range.Matches(d)
    ensures IsOrder(Insert(s, order, Before), sources[s.id := s], d)
  {
    var longer := Insert(s, order, Before);
    BeforeIsTotal();
    InsertSorts(s, order, Before);
    InsertPermutes(s, order, Before);
    forall x ensures x in longer <==> x in order || x == s {
      assert x in longer <==> x in multiset(longer);
      assert x in order <==> x in multiset(order);
    }
    InsertKeepsDistinct(s, order);
  }

  lemma {:induction false} InsertKeepsDistinct(s: Source, order: seq<Source>)
    requires forall j, k | 0 <= j < k < |order| :: order[j].id != order[k].id
    requires forall x | x in order :: x.id != s.id
    ensures var longer := Insert(s, order, Before);
            && (forall j, k | 0 <= j < k < |longer| :: longer[j].id != longer[k].id)
            && (forall x :: x in longer <==> x in order || x == s)
  {
    if order != [] && !Before(s, order[0]) {
      var t := Insert(s, order[1..], Before);
      InsertKeepsDistinct(s, order[1..]);
      assert Insert(s, order, Before) == [order[0]] + t;
      forall k | 0 <= k < |t| ensures t[k].id != order[0].id {
        assert t[k] in t;
        if t[k] in order[1..] {
          var j :| 0 <= j < |order[1..]| && order[1..][j] == t[k];
          assert order[j + 1] == t[k];
        } else {
          assert order[0] in order;
        }
      }
    }
  }

  lemma ReconcileKeepsInv(l: Ledger, hash: string -> string, messages: seq<Message>)
    requires Inv(l, hash)
    ensures Inv(Reconcile(l, hash, messages), hash)
  {
  }

  // ---- Every run of the ledger ----

  datatype Action =
    | DoRegister(id: string, d: Descriptor, text: string)
    | DoReceipt(id: string, sources: seq<string>)
    | DoInvalidate(ids: seq<string>)
    | DoReconcile(messages: seq<Message>)   // also what a coverage query does first
    | DoClaim(d: Descriptor)
    | DoRotate

  function Step(l: Ledger, hash: string -> string, a: Action): Ledger {
    match a
    case DoRegister(id, d, text) => RegisterFullSource(l, hash, id, d, text)
    case DoReceipt(id, sources) => RegisterReceipt(l, id, sources)
    case DoInvalidate(ids) => Invalidate(l, Elements(ids))
    case DoReconcile(messages) => Reconcile(l, hash, messages)
    case DoClaim(d) => Claim(l, d).0
    case DoRotate => RotateEpoch(l)
  }

  function Run(l: Ledger, hash: string -> string, actions: seq<Action>): Ledger
    decreases |actions|
  {
    if actions == [] then l else Run(Step(l, hash, actions[0]), hash, actions[1..])
  }

  lemma StepKeepsInv(l: Ledger, hash: string -> string, a: Action)
    requires Inv(l, hash)
    ensures Inv(Step(l, hash, a), hash)
  {
    if a.DoReceipt? && a.sources != [] { assert a.sources[0] in FirstOccurrences(a.sources); }
  }

  lemma {:induction false} RunKeepsInv(l: Ledger, hash: string -> string, actions: seq<Action>)
    requires Inv(l, hash)
    ensures Inv(Run(l, hash, actions), hash)
    decreases |actions|
  {
    if actions != [] {
      StepKeepsInv(l, hash, actions[0]);
      RunKeepsInv(Step(l, hash, actions[0]), hash, actions[1..]);
    }
  }

  // ---- What a coverage query promises ----

  /** A source that is registered for this content, is still in the history word for word, and shows the line. */
  ghost predicate LiveAt(l: Ledger, hash: string -> string, messages: seq<Message>, d: Descriptor, id: string, line: int) {
    id in l.sources && Alive(hash, l.sources[id], messages) && l.sources[id].range.Matches(d) && Covers(l.sources[id], line)
  }

  ghost predicate LineIsLive(l: Ledger, hash: string -> string, messages: seq<Message>, d: Descriptor, line: int) {
    exists id :: LiveAt(l, hash, messages, d, id, line)
  }

  lemma LiveIsCovered(l: Ledger, hash: string -> string, messages: seq<Message>, d: Descriptor, order: seq<Source>, line: int)
    requires Inv(l, hash) && IsOrder(order, Reconcile(l, hash, messages).sources, d)
    ensures LineIsLive(l, hash, messages, d, line) <==> LineCovered(order, line)
  {
    if LineIsLive(l, hash, messages, d, line) {
      var id :| LiveAt(l, hash, messages, d, id, line);
      assert l.sources[id] in order;
    }
    if LineCovered(order, line) {
      var s :| s in order && Covers(s, line);
      assert LiveAt(l, hash, messages, d, s.id, line);
    }
  }

  /** A query answers with sources exactly when every requested line is shown by some live source. */
  lemma CoverageExact(l: Ledger, hash: string -> string, messages: seq<Message>, d: Descriptor, order: seq<Source>)
    requires Inv(l, hash) && d.HasContent() && IsOrder(order, Reconcile(l, hash, messages).sources, d)
    ensures Selected(order, d) != [] <==> forall line | d.start <= line <= d.end :: LineIsLive(l, hash, messages, d, line)
  {
    SweepExact(order, d.start, d.end);
    if Sweep(order, d.start, d.end).Some? { SweepChains(order, d.start, d.end); }
    forall line ensures LineIsLive(l, hash, messages, d, line) <==> LineCovered(order, line) {
      LiveIsCovered(l, hash, messages, d, order, line);
    }
  }

  ghost predicate Injective(hash: string -> string) {
    forall a, b | hash(a) == hash(b) :: a == b
  }

  /** Every answered id is a source and no receipt, and unless two texts collide under the hash the history still
      carries exactly the text it was registered with. */
  lemma SelectedAreVerbatim(l: Ledger, hash: string -> string, messages: seq<Message>, d: Descriptor, order: seq<Source>, id: string)
    requires Inv(l, hash) && d.HasContent() && IsOrder(order, Reconcile(l, hash, messages).sources, d)
    requires id in Selected(order, d)
    ensures id in l.sources && id !in l.receipts && l.sources[id].range.Matches(d)
    ensures LastAnswer(messages, id).Some? && LastAnswer(messages, id).value.content.Text?
    ensures Injective(hash) ==> LastAnswer(messages, id).value.content.text == l.bodies[id]
  {
    SweepChains(order, d.start, d.end);
    var picked := Sweep(order, d.start, d.end).value;
    var k :| 0 <= k < |picked| && Ids(picked)[k] == id;
    assert picked[k] in picked;
    assert picked[k] in order;
  }

  /** The answered sources cover the request between them, each reaching further than the one before. */
  lemma SelectedCover(order: seq<Source>, d: Descriptor)
    requires d.HasContent() && Selected(order, d) != []
    ensures var picked := Sweep(order, d.start, d.end).value;
            && Selected(order, d) == Ids(picked) && AllCovered(picked, d.start, d.end)
            && forall j, k | 0 <= j < k < |picked| :: picked[j].range.end < picked[k].range.end
  {
    SweepChains(order, d.start, d.end);
    ChainCovers(Sweep(order, d.start, d.end).value, d.start, d.end);
  }

  lemma HasMember(s: seq<Source>)
    requires s != []
    ensures exists x :: x in s
  {
    assert s[0] in s;
  }

  /** The answer does not depend on the order in which the sources were registered. */
  lemma {:induction false} OrderUnique(a: seq<Source>, b: seq<Source>)
    requires SortedBy(a, Before) && SortedBy(b, Before)
    requires forall j, k | 0 <= j < k < |a| :: a[j].id != a[k].id
    requires forall j, k | 0 <= j < k < |b| :: b[j].id != b[k].id
    requires forall s :: s in a <==> s in b
    ensures a == b
  {
    if a == [] {
      if b != [] {
        HasMember(b);
        assert false;
      }
    } else {
      assert a[0] in b && b != [] && b[0] in a;
      var j :| 0 <= j < |b| && b[j] == a[0];
      var k :| 0 <= k < |a| && a[k] == b[0];
      BeforeIsTotal();
      assert Before(b[0], b[j]) && Before(a[0], a[k]);
      assert a[0] == b[0];
      forall s ensures s in a[1..] <==> s in b[1..] {
        if s in a[1..] { assert s in b && s != b[0]; }
        if s in b[1..] { assert s in a && s != a[0]; }
      }
      OrderUnique(a[1..], b[1..]);
    }
  }

  // ---- Staleness and refreshing ----

  /** Reconciling twice against the same history changes nothing the second time. */
  lemma ReconcileIdempotent(l: Ledger, hash: string -> string, messages: seq<Message>)
    requires Inv(l, hash)
    ensures Reconcile(Reconcile(l, hash, messages), hash, messages) == Reconcile(l, hash, messages)
  {
    var r := Reconcile(l, hash, messages);
    var again := Reconcile(r, hash, messages);
    assert again.sources == r.sources && again.receipts == r.receipts;
  }

  /** A resource version is granted one forced reload per epoch: once asked, it is refused until the epoch rotates. */
  lemma {:induction false} OneReloadPerEpoch(l: Ledger, hash: string -> string, d: Descriptor, actions: seq<Action>)
    requires forall a | a in actions :: !a.DoRotate?
    ensures !Claim(Run(Claim(l, d).0, hash, actions), d).1
  {
    RefreshedStays(Claim(l, d).0, hash, (d.resource, d.version), actions);
  }

  lemma {:induction false} RefreshedStays(l: Ledger, hash: string -> string, key: (string, string), actions: seq<Action>)
    requires key in l.refreshed && forall a | a in actions :: !a.DoRotate?
    ensures key in Run(l, hash, actions).refreshed
    decreases |actions|
  {
    if actions != [] {
      assert !actions[0].DoRotate?;
      RefreshedStays(Step(l, hash, actions[0]), hash, key, actions[1..]);
    }
  }

  /** After the epoch rotates nothing is covered until something is registered again, and a reload is granted anew. */
  lemma RotatingForgets(l: Ledger, hash: string -> string, messages: seq<Message>, d: Descriptor, order: seq<Source>)
    requires d.HasContent() && IsOrder(order, Reconcile(RotateEpoch(l), hash, messages).sources, d)
    ensures Selected(order, d) == [] && Claim(RotateEpoch(l), d).1
  {
    if order != [] {
      HasMember(order);
      assert false;
    }
  }
}
