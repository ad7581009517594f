/** Connector status snapshots: appended to new messages when the state changes, and put back after compaction
    has dropped them. */
module ConnectorContext {

  datatype Block = TextBlock(text: string) | OtherBlock(data: string)

  datatype Content = Text(text: string) | Blocks(blocks: seq<Block>)

  /** `status` is the trusted host snapshot of the message, empty when it has none. */
  datatype Message = Message(role: string, content: Content, status: string)

  type History = seq<Message>

  const NOTICE := "[Host connector status update: this complete snapshot supersedes all earlier "
                  + "host connector snapshots. If unavailable, do not reuse earlier connection states.]"
  const MARKERS := {"<connector-status>", "</connector-status>"}

  /** What a snapshot says; two messages are in the same state when their snapshots say the same. */
  type Key = string -> multiset<string>

  // ---- Text ----

  predicate IsBreak(c: char) {
    '\n' <= c <= '\r' || '\U{1c}' <= c <= '\U{1e}' || c == '\U{85}' || '\U{2028}' <= c <= '\U{2029}'
  }

  predicate IsSpace(c: char) {
    || IsBreak(c) || c == ' ' || c == '\t' || c == '\U{1f}' || c == '\U{a0}' || c == '\U{1680}'
    || '\U{2000}' <= c <= '\U{200a}' || c == '\U{202f}' || c == '\U{205f}' || c == '\U{3000}'
  }

  function StripLeft(s: string): string {
    if s != "" && IsSpace(s[0]) then StripLeft(s[1..]) else s
  }

  function StripRight(s: string): string {
    if s != "" && IsSpace(s[|s| - 1]) then StripRight(s[..|s| - 1]) else s
  }

  function Strip(s: string): string {
    StripRight(StripLeft(s))
  }

  /** The text up to the first line break, and what follows it. */
  function FirstLine(s: string): (r: (string, string))
    ensures s != "" ==> |r.1| < |s|
  {
    if s == "" then ("", "")
    else if IsBreak(s[0]) then ("", s[1..])
    else
      var (line, rest) := FirstLine(s[1..]);
      ([s[0]] + line, rest)
  }

  /** What a snapshot says: its lines, stripped, without the markers, in any order. */
  function SnapshotKey(s: string): multiset<string>
    decreases |s|
  {
    if s == "" then multiset{}
    else
      var (line, rest) := FirstLine(s);
      var row := Strip(line);
      (if row == "" || row in MARKERS then multiset{} else multiset{row}) + SnapshotKey(rest)
  }

  predicate StartsAt(text: string, fragment: string, k: nat) {
    k + |fragment| <= |text| && text[k..k + |fragment|] == fragment
  }

  predicate Contains(text: string, fragment: string) {
    exists k | 0 <= k <= |text| :: StartsAt(text, fragment, k)
  }

  function AppendSnapshot(content: string, snapshot: string, update: bool): string {
    StripRight(content) + "\n\n" + (if update then NOTICE + "\n" else "") + Strip(snapshot)
  }

  predicate IsMarked(m: Message) {
    m.role == "user" && m.status != ""
  }

  predicate ShowsStatus(m: Message) {
    match m.content
    case Text(text) => Contains(text, Strip(m.status))
    case Blocks(blocks) => exists k :: 0 <= k < |blocks| && blocks[k].TextBlock? && Contains(blocks[k].text, Strip(m.status))
  }

  // ---- Runs of one state ----

  /** The last marked message before position `i`, or -1. */
  function PreviousMarked(h: History, i: nat): (p: int)
    requires i <= |h|
    ensures -1 <= p < i
    ensures p >= 0 ==> IsMarked(h[p])
    ensures forall j | p < j < i :: !IsMarked(h[j])
  {
    if i == 0 then -1 else if IsMarked(h[i - 1]) then i - 1 else PreviousMarked(h, i - 1)
  }

  /** The first message of the run of unchanged state that position `i` belongs to. */
  function RunStart(key: Key, h: History, i: nat): (a: nat)
    requires i < |h|
    ensures a <= i
    ensures IsMarked(h[i]) ==> IsMarked(h[a])
    decreases i
  {
    var p := PreviousMarked(h, i);
    if p >= 0 && key(h[p].status) == key(h[i].status) then RunStart(key, h, p) else i
  }

  predicate ShowsRun(key: Key, h: History, a: nat, j: nat) {
    j < |h| && IsMarked(h[j]) && RunStart(key, h, j) == a && ShowsStatus(h[j])
  }

  predicate RunIsVisible(key: Key, h: History, a: nat) {
    exists j | 0 <= j < |h| :: ShowsRun(key, h, a, j)
  }

  function WithSnapshot(m: Message, update: bool): Message {
    m.(content :=
      match m.content
      case Text(text) => Text(AppendSnapshot(text, m.status, update))
      case Blocks(blocks) => Blocks(blocks + [TextBlock(AppendSnapshot("", m.status, update))]))
  }

  predicate NeedsSnapshot(key: Key, h: History, i: nat)
    requires i < |h|
  {
    IsMarked(h[i]) && RunStart(key, h, i) == i && !RunIsVisible(key, h, i)
  }

  function RestoredAt(key: Key, h: History, i: nat): Message
    requires i < |h|
  {
    if NeedsSnapshot(key, h, i) then WithSnapshot(h[i], PreviousMarked(h, i) >= 0) else h[i]
  }

  /** The first message of every run that no longer shows its state gets the snapshot back. */
  function Restored(key: Key, h: History): (r: History)
    ensures |r| == |h| && forall i | 0 <= i < |h| :: r[i] == RestoredAt(key, h, i)
  {
    seq(|h|, i requires 0 <= i < |h| => RestoredAt(key, h, i))
  }

  function AppendStatus(key: Key, h: History, content: string, snapshot: string): string {
    var p := PreviousMarked(h, |h|);
    if snapshot == "" then content
    else if p >= 0 && key(h[p].status) == key(snapshot) then content
    else AppendSnapshot(content, snapshot, p >= 0)
  }

  // ---- The loops ----

  method AppendConnectorStatus(messages: History, content: string, snapshot: string) returns (r: string)
    ensures r == AppendStatus(SnapshotKey, messages, content, snapshot)
  {
    if snapshot == "" {
      return content;
    }
    var k := |messages|;
    while k > 0 && !IsMarked(messages[k - 1])
      invariant 0 <= k <= |messages| && PreviousMarked(messages, |messages|) == PreviousMarked(messages, k)
    {
      k := k - 1;
    }
    if k > 0 && SnapshotKey(messages[k - 1].status) == SnapshotKey(snapshot) {
      return content;
    }
    r := AppendSnapshot(content, snapshot, k > 0);
  }

  /** The runs among the first `n` messages, each as the positions of its marked messages. */
  function Runs(key: Key, h: History, n: nat): seq<seq<nat>>
    requires n <= |h|
  {
    if n == 0 then []
    else
      var before, p := Runs(key, h, n - 1), PreviousMarked(h, n - 1);
      if !IsMarked(h[n - 1]) then before
      else if before == [] || p < 0 || key(h[n - 1].status) != key(h[p].status) then before + [[n - 1]]
      else before[|before| - 1 := before[|before| - 1] + [n - 1]]
  }

  predicate AnyShows(h: History, run: seq<nat>) {
    exists k | 0 <= k < |run| :: run[k] < |h| && ShowsStatus(h[run[k]])
  }

  /** The history with the first `n` runs looked after. */
  function RestoreRuns(h: History, runs: seq<seq<nat>>, n: nat): (r: History)
    requires n <= |runs|
    ensures |r| == |h|
  {
    if n == 0 then h
    else
      var before, run := RestoreRuns(h, runs, n - 1), runs[n - 1];
      if run == [] || run[0] >= |h| || AnyShows(h, run) then before
      else before[run[0] := WithSnapshot(h[run[0]], n - 1 > 0)]
  }

  method CollectRuns(key: Key, h: History) returns (runs: seq<seq<nat>>)
    ensures runs == Runs(key, h, |h|)
  {
    runs := [];
    var previous: int := -1;
    for i := 0 to |h|
      invariant previous == PreviousMarked(h, i) && runs == Runs(key, h, i)
    {
      if IsMarked(h[i]) {
        if runs == [] || previous < 0 || key(h[i].status) != key(h[previous].status) {
          var none: seq<nat> := [];
          assert none + [i] == [i];
          assert (runs + [none])[|runs| := none + [i]] == runs + [[i]];
          runs := runs + [none];
        }
        runs := runs[|runs| - 1 := runs[|runs| - 1] + [i]];
        previous := i;
      }
    }
  }

  method RestoreConnectorStatus(messages: History) returns (projected: History)
    ensures projected == Restored(SnapshotKey, messages)
  {
    var runs := CollectRuns(SnapshotKey, messages);
    projected := messages;
    for r := 0 to |runs|
      invariant projected == RestoreRuns(messages, runs, r)
    {
      var run := runs[r];
      RunAnchor(SnapshotKey, messages, |messages|, r);
      if !AnyShows(messages, run) {
        projected := projected[run[0] := WithSnapshot(messages[run[0]], r > 0)];
      }
    }
    RestoringRuns(SnapshotKey, messages);
  }

  // ---- The runs are those of the definition ----

  ghost predicate GoodRun(key: Key, h: History, run: seq<nat>) {
    run != [] && forall k | 0 <= k < |run| :: run[k] < |h| && IsMarked(h[run[k]]) && RunStart(key, h, run[k]) == run[0]
  }

  /** The last run ends with the last marked message. */
  lemma {:induction false} LastRun(key: Key, h: History, n: nat)
    requires n <= |h|
    ensures var runs, p := Runs(key, h, n), PreviousMarked(h, n);
            if runs == [] then p < 0
            else p >= 0 && runs[|runs| - 1] != [] && runs[|runs| - 1][|runs[|runs| - 1]| - 1] == p
                 && runs[|runs| - 1][0] == RunStart(key, h, p)
  {
    if n > 0 { LastRun(key, h, n - 1); }
  }

  /** What looking at one more message does to a run. */
  lemma RunStep(key: Key, h: History, n: nat, r: nat)
    requires 0 < n <= |h| && r < |Runs(key, h, n)|
    ensures var before, run, i := Runs(key, h, n - 1), Runs(key, h, n)[r], n - 1;
            || (r < |before| && run == before[r])
            || (r == |before| - 1 && run == before[r] + [i] && IsMarked(h[i]) && before[r] != [] && RunStart(key, h, i) == before[r][0])
            || (r == |before| && run == [i] && IsMarked(h[i]) && RunStart(key, h, i) == i && (r > 0 <==> PreviousMarked(h, i) >= 0))
  {
    LastRun(key, h, n - 1);
  }

  lemma {:induction false} RunIsGood(key: Key, h: History, n: nat, r: nat)
    requires n <= |h| && r < |Runs(key, h, n)|
    ensures GoodRun(key, h, Runs(key, h, n)[r])
    decreases n
  {
    RunStep(key, h, n, r);
    if r < |Runs(key, h, n - 1)| { RunIsGood(key, h, n - 1, r); }
  }

  /** Only the first run has no marked message before it. */
  lemma {:induction false} RunAnchor(key: Key, h: History, n: nat, r: nat)
    requires n <= |h| && r < |Runs(key, h, n)|
    ensures var run := Runs(key, h, n)[r];
            run != [] && run[0] < n && (r > 0 <==> PreviousMarked(h, run[0]) >= 0)
    decreases n
  {
    RunStep(key, h, n, r);
    if r < |Runs(key, h, n - 1)| { RunAnchor(key, h, n - 1, r); }
  }

  lemma {:induction false} AnchorsIncrease(key: Key, h: History, n: nat, q: nat, r: nat)
    requires n <= |h| && q < r < |Runs(key, h, n)|
    ensures Runs(key, h, n)[q] != [] && Runs(key, h, n)[r] != [] && Runs(key, h, n)[q][0] < Runs(key, h, n)[r][0]
    decreases n
  {
    RunStep(key, h, n, q);
    RunStep(key, h, n, r);
    if r < |Runs(key, h, n - 1)| {
      AnchorsIncrease(key, h, n - 1, q, r);
    } else {
      RunAnchor(key, h, n - 1, q);
    }
  }

  /** Every marked message is in some run. */
  lemma {:induction false} RunOfMarked(key: Key, h: History, n: nat, j: nat) returns (r: nat, k: nat)
    requires j < n <= |h| && IsMarked(h[j])
    ensures r < |Runs(key, h, n)| && k < |Runs(key, h, n)[r]| && Runs(key, h, n)[r][k] == j
    decreases n
  {
    var before := Runs(key, h, n - 1);
    if j < n - 1 {
      r, k := RunOfMarked(key, h, n - 1, j);
    } else {
      r := |Runs(key, h, n)| - 1;
      k := |Runs(key, h, n)[r]| - 1;
    }
  }

  /** Looking through the messages of a run decides whether its state is shown. */
  lemma RunVisibility(key: Key, h: History, r: nat)
    requires r < |Runs(key, h, |h|)|
    ensures GoodRun(key, h, Runs(key, h, |h|)[r])
    ensures RunIsVisible(key, h, Runs(key, h, |h|)[r][0]) <==> AnyShows(h, Runs(key, h, |h|)[r])
  {
    var run := Runs(key, h, |h|)[r];
    RunIsGood(key, h, |h|, r);
    if RunIsVisible(key, h, run[0]) {
      var j :| 0 <= j < |h| && ShowsRun(key, h, run[0], j);
      var q, k := RunOfMarked(key, h, |h|, j);
      RunIsGood(key, h, |h|, q);
      if q < r { AnchorsIncrease(key, h, |h|, q, r); }
      if r < q { AnchorsIncrease(key, h, |h|, r, q); }
      assert run[k] == j;
    }
    if AnyShows(h, run) {
      var k :| 0 <= k < |run| && run[k] < |h| && ShowsStatus(h[run[k]]);
      assert ShowsRun(key, h, run[0], run[k]);
    }
  }

  ghost predicate AnchorsRun(runs: seq<seq<nat>>, n: nat, i: nat) {
    exists q :: 0 <= q < n && q < |runs| && runs[q] != [] && runs[q][0] == i
  }

  lemma AnchorRestored(key: Key, h: History, r: nat)
    requires r < |Runs(key, h, |h|)|
    ensures var run := Runs(key, h, |h|)[r];
            && run != [] && run[0] < |h|
            && RestoredAt(key, h, run[0]) == if AnyShows(h, run) then h[run[0]] else WithSnapshot(h[run[0]], r > 0)
  {
    RunVisibility(key, h, r);
    RunAnchor(key, h, |h|, r);
  }

  lemma {:induction false} RestoredRunsAt(key: Key, h: History, n: nat, i: nat)
    requires n <= |Runs(key, h, |h|)| && i < |h|
    ensures var runs := Runs(key, h, |h|);
            RestoreRuns(h, runs, n)[i] == if AnchorsRun(runs, n, i) then RestoredAt(key, h, i) else h[i]
  {
    if n > 0 {
      var runs := Runs(key, h, |h|);
      RestoredRunsAt(key, h, n - 1, i);
      AnchorRestored(key, h, n - 1);
      assert AnchorsRun(runs, n, i) <==> AnchorsRun(runs, n - 1, i) || runs[n - 1][0] == i;
      if AnchorsRun(runs, n - 1, i) {
        var q :| 0 <= q < n - 1 && runs[q] != [] && runs[q][0] == i;
        AnchorsIncrease(key, h, |h|, q, n - 1);
      }
    }
  }

  lemma RestoringRuns(key: Key, h: History)
    ensures RestoreRuns(h, Runs(key, h, |h|), |Runs(key, h, |h|)|) == Restored(key, h)
  {
    var runs := Runs(key, h, |h|);
    forall i | 0 <= i < |h| ensures RestoreRuns(h, runs, |runs|)[i] == RestoredAt(key, h, i) {
      RestoredRunsAt(key, h, |runs|, i);
      if NeedsSnapshot(key, h, i) {
        var r, k := RunOfMarked(key, h, |h|, i);
        RunIsGood(key, h, |h|, r);
      }
    }
  }

  // ---- Snapshots that were put back are shown ----

  lemma AppendedIsContained(content: string, snapshot: string, update: bool)
    ensures Contains(AppendSnapshot(content, snapshot, update), Strip(snapshot))
  {
    var head := StripRight(content) + "\n\n" + (if update then NOTICE + "\n" else "");
    assert AppendSnapshot(content, snapshot, update) == head + Strip(snapshot);
    assert (head + Strip(snapshot))[|head|..|head| + |Strip(snapshot)|] == Strip(snapshot);
    assert StartsAt(AppendSnapshot(content, snapshot, update), Strip(snapshot), |head|);
  }

  lemma WithSnapshotShows(m: Message, update: bool)
    ensures ShowsStatus(WithSnapshot(m, update))
  {
    match m.content
    case Text(text) => AppendedIsContained(text, m.status, update);
    case Blocks(blocks) =>
      AppendedIsContained("", m.status, update);
      var more := blocks + [TextBlock(AppendSnapshot("", m.status, update))];
      assert more[|blocks|].TextBlock?;
  }

  // ---- The runs depend on the states only ----

  ghost predicate SameStates(g: History, h: History, n: nat) {
    n <= |g| && n <= |h| && forall j | 0 <= j < n :: g[j].role == h[j].role && g[j].status == h[j].status
  }

  lemma {:induction false} SamePrevious(g: History, h: History, i: nat)
    requires SameStates(g, h, i)
    ensures PreviousMarked(g, i) == PreviousMarked(h, i)
  {
    if i > 0 { SamePrevious(g, h, i - 1); }
  }

  lemma {:induction false} SameRunStart(key: Key, g: History, h: History, i: nat)
    requires i < |g| && i < |h| && SameStates(g, h, i + 1)
    ensures RunStart(key, g, i) == RunStart(key, h, i)
    decreases i
  {
    SamePrevious(g, h, i);
    if PreviousMarked(h, i) >= 0 { SameRunStart(key, g, h, PreviousMarked(h, i)); }
  }

  /** A run starts where it starts, in one state, and has no gaps. */
  lemma {:induction false} RunIsContiguous(key: Key, h: History, i: nat, j: nat)
    requires j <= i < |h| && IsMarked(h[i]) && IsMarked(h[j]) && RunStart(key, h, i) <= j
    ensures RunStart(key, h, j) == RunStart(key, h, i) && key(h[j].status) == key(h[i].status)
    decreases i
  {
    if j < i { RunIsContiguous(key, h, PreviousMarked(h, i), j); }
  }

  // ---- What restoring achieves ----

  /** After restoring, every run of unchanged state shows its snapshot somewhere. */
  lemma EveryRunIsVisible(key: Key, h: History, i: nat)
    requires i < |h| && IsMarked(h[i])
    ensures RunIsVisible(key, Restored(key, h), RunStart(key, Restored(key, h), i))
  {
    var r, a := Restored(key, h), RunStart(key, h, i);
    SameRunStart(key, r, h, i);
    SameRunStart(key, r, h, a);
    RunIsContiguous(key, h, i, a);
    if RunIsVisible(key, h, a) {
      var j :| 0 <= j < |h| && ShowsRun(key, h, a, j);
      SameRunStart(key, r, h, j);
      WithSnapshotShows(h[j], PreviousMarked(h, j) >= 0);
      assert ShowsRun(key, r, a, j);
    } else {
      assert NeedsSnapshot(key, h, a);
      WithSnapshotShows(h[a], PreviousMarked(h, a) >= 0);
      assert ShowsRun(key, r, a, a);
    }
  }

  /** Restoring a restored history changes nothing. */
  lemma RestoreIsIdempotent(key: Key, h: History)
    ensures Restored(key, Restored(key, h)) == Restored(key, h)
  {
    var r := Restored(key, h);
    forall i | 0 <= i < |h| ensures RestoredAt(key, r, i) == r[i] {
      if IsMarked(h[i]) { EveryRunIsVisible(key, h, i); }
    }
  }

  /** The current state is shown somewhere in its own run. */
  lemma CurrentIsShown(key: Key, h: History, p: nat) returns (j: nat)
    requires p < |h| && IsMarked(h[p])
    ensures RunStart(key, h, p) <= j < |h| && IsMarked(h[j]) && ShowsStatus(Restored(key, h)[j])
  {
    var r := Restored(key, h);
    EveryRunIsVisible(key, h, p);
    SameRunStart(key, r, h, p);
    j :| 0 <= j < |r| && ShowsRun(key, r, RunStart(key, r, p), j);
  }

  /** The last snapshot that a restored history shows is the current state. */
  lemma LastShownIsCurrent(key: Key, h: History, v: nat)
    requires var r := Restored(key, h);
             v < |h| && IsMarked(r[v]) && ShowsStatus(r[v]) && forall j | v < j < |r| :: !(IsMarked(r[j]) && ShowsStatus(r[j]))
    ensures var p := PreviousMarked(h, |h|); p >= 0 && key(h[v].status) == key(h[p].status)
  {
    var p := PreviousMarked(h, |h|);
    assert IsMarked(h[v]) && v <= p;
    var j := CurrentIsShown(key, h, p);
    assert IsMarked(Restored(key, h)[j]);
    RunIsContiguous(key, h, p, v);
  }

  /** A history to which every message was added through the append function, or that carries no status. */
  ghost predicate Built(key: Key, h: History) {
    h != [] ==>
      var before, m := h[..|h| - 1], h[|h| - 1];
      && Built(key, before)
      && (IsMarked(m) ==> exists content :: m.content == Text(AppendStatus(key, before, content, m.status)))
  }

  /** In such a history the first message of each run shows the run's state. */
  lemma {:induction false} FirstsShow(key: Key, h: History, i: nat)
    requires Built(key, h) && i < |h| && IsMarked(h[i]) && RunStart(key, h, i) == i
    ensures ShowsStatus(h[i])
    decreases |h|
  {
    var n := |h| - 1;
    var before := h[..n];
    SamePrevious(before, h, i);
    SameRunStart(key, h, h, i);
    if i < n {
      SameRunStart(key, before, h, i);
      FirstsShow(key, before, i);
    } else {
      var content :| h[i].content == Text(AppendStatus(key, before, content, h[i].status));
      AppendedIsContained(content, h[i].status, PreviousMarked(before, |before|) >= 0);
    }
  }

  /** A history built through the append function needs no repair. */
  lemma BuiltIsFixed(key: Key, h: History)
    requires Built(key, h)
    ensures Restored(key, h) == h
  {
    forall i | 0 <= i < |h| ensures RestoredAt(key, h, i) == h[i] {
      if IsMarked(h[i]) && RunStart(key, h, i) == i {
        FirstsShow(key, h, i);
        assert ShowsRun(key, h, i, i);
      }
    }
  }

  /** The message shows again, in a later turn, the state whose run had lost its snapshot. */
  ghost predicate ShowsLostState(key: Key, h: History, m: Message) {
    var p := PreviousMarked(h, |h|);
    IsMarked(m) && ShowsStatus(m) && p >= 0 && key(h[p].status) == key(m.status) && !RunIsVisible(key, h, RunStart(key, h, p))
  }

  /** What a new turn leaves alone about an earlier message. */
  lemma SameBefore(key: Key, h: History, m: Message, i: nat)
    requires i < |h|
    ensures PreviousMarked(h + [m], i) == PreviousMarked(h, i) && RunStart(key, h + [m], i) == RunStart(key, h, i)
    ensures RunIsVisible(key, h + [m], i) <==> RunIsVisible(key, h, i) || ShowsRun(key, h + [m], i, |h|)
  {
    SamePrevious(h + [m], h, i);
    SameRunStart(key, h + [m], h, i);
    StillVisible(key, h, m, i);
  }

  lemma LostStateChangesPrefix(key: Key, h: History, m: Message)
    requires ShowsLostState(key, h, m)
    ensures Restored(key, h + [m])[..|h|] != Restored(key, h)
  {
    var g, n, p := h + [m], |h|, PreviousMarked(h, |h|);
    var a := RunStart(key, h, p);
    SamePrevious(g, h, n);
    SameRunStart(key, g, h, p);
    RunIsContiguous(key, h, p, a);
    SameBefore(key, h, m, a);
    assert ShowsRun(key, g, a, n);
    WithSnapshotShows(h[a], PreviousMarked(h, a) >= 0);
    assert !ShowsRun(key, h, a, a);
    assert Restored(key, g)[a] == h[a] != Restored(key, h)[a];
    assert Restored(key, g)[..n][a] != Restored(key, h)[a];
  }

  lemma OtherwiseSame(key: Key, h: History, m: Message, i: nat)
    requires i < |h| && !ShowsLostState(key, h, m)
    ensures RestoredAt(key, h + [m], i) == RestoredAt(key, h, i)
  {
    var g, p := h + [m], PreviousMarked(h, |h|);
    SamePrevious(g, h, |h|);
    if p >= 0 { SameRunStart(key, g, h, p); }
    SameBefore(key, h, m, i);
    assert ShowsRun(key, g, i, |h|) ==> RunIsVisible(key, h, i);
  }

  /** What was already sent stays as it was when a turn is added, except in exactly one case: the new message itself
      shows the unchanged state that had to be put back before. */
  lemma PrefixIsStableIff(key: Key, h: History, m: Message)
    ensures Restored(key, h + [m])[..|h|] == Restored(key, h) <==> !ShowsLostState(key, h, m)
  {
    if ShowsLostState(key, h, m) {
      LostStateChangesPrefix(key, h, m);
    } else {
      forall i | 0 <= i < |h| ensures Restored(key, h + [m])[i] == Restored(key, h)[i] {
        OtherwiseSame(key, h, m, i);
      }
      assert Restored(key, h + [m])[..|h|] == Restored(key, h);
    }
  }

  lemma StillVisible(key: Key, h: History, m: Message, a: nat)
    requires a < |h|
    ensures RunIsVisible(key, h + [m], a) <==> RunIsVisible(key, h, a) || ShowsRun(key, h + [m], a, |h|)
  {
    var g := h + [m];
    forall j | 0 <= j < |h| ensures ShowsRun(key, g, a, j) <==> ShowsRun(key, h, a, j) {
      SameRunStart(key, g, h, j);
    }
    if RunIsVisible(key, h, a) {
      var j :| 0 <= j < |h| && ShowsRun(key, h, a, j);
      assert ShowsRun(key, g, a, j);
    }
    if RunIsVisible(key, g, a) {
      var j :| 0 <= j < |g| && ShowsRun(key, g, a, j);
      assert j < |h| ==> ShowsRun(key, h, a, j);
    }
  }

  /** In particular a new turn that does not itself contain its snapshot, or that changes the state, disturbs nothing. */
  lemma NewTurnsKeepThePrefix(key: Key, h: History, m: Message)
    requires !IsMarked(m) || !ShowsStatus(m) || PreviousMarked(h, |h|) < 0
             || key(h[PreviousMarked(h, |h|)].status) != key(m.status)
    ensures Restored(key, h + [m])[..|h|] == Restored(key, h)
  {
    PrefixIsStableIff(key, h, m);
  }

  const FIRST := Message("user", Text("hi"), "on")
  const LATER := Message("user", Text("it is on"), "on")

  lemma OnIsPlain()
    ensures Strip("on") == "on" && StripRight("hi") == "hi"
  {
    assert !IsSpace('o') && !IsSpace('n') && !IsSpace('i');
  }

  /** The first message was sent with its snapshot put back; once a later one quotes that snapshot, it is sent without. */
  lemma SentPrefixChanges(key: Key)
    ensures Restored(key, [FIRST]) == [FIRST.(content := Text("hi\n\non"))]
    ensures Restored(key, [FIRST, LATER]) == [FIRST, LATER]
  {
    var h := [FIRST];
    OnIsPlain();
    assert forall k | 0 <= k <= 2 :: !StartsAt("hi", "on", k) by { assert "hi"[0] != "on"[0]; }
    assert !ShowsStatus(FIRST);
    assert PreviousMarked(h, 0) == -1 && RunStart(key, h, 0) == 0;
    assert !ShowsRun(key, h, 0, 0);
    assert NeedsSnapshot(key, h, 0);
    assert StripRight("hi") + "\n\n" + "" + Strip("on") == "hi\n\non";
    assert WithSnapshot(FIRST, false).content == Text("hi\n\non");
    assert Restored(key, h)[0] == WithSnapshot(FIRST, false);
    var g := [FIRST, LATER];
    assert StartsAt("it is on", "on", 6);
    assert ShowsStatus(LATER);
    assert PreviousMarked(g, 0) == -1 && RunStart(key, g, 0) == 0;
    assert PreviousMarked(g, 1) == 0 && RunStart(key, g, 1) == 0;
    assert ShowsRun(key, g, 0, 1);
    assert Restored(key, g)[0] == g[0] && Restored(key, g)[1] == g[1];
  }
}
