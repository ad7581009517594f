/** What observing one call does to a curator's tables, told by what they answer for every key. */
module CorrectionRules {
  import opened Ordering
  import opened Tables
  import opened Correction
  import opened CorrectionLaws
  import opened Optional

  /** The state after some trace of calls. */
  ghost predicate Reached(c: Curator, policy: Policy, calls: seq<Call>) {
    policy.repeat >= 1 && c == Run(Initial(), policy, calls)
  }

  ghost predicate Fits<K, V>(t: seq<(K, V)>) {
    Keyed(t) && |t| <= 128
  }

  lemma ReachedFits(c: Curator, policy: Policy, calls: seq<Call>)
    requires Reached(c, policy, calls)
    ensures Fits(c.failures) && Fits(c.repairs) && Fits(c.verifications)
    ensures Find(c.verifications, |c.receipts|) == None
    ensures forall f | f in c.failures :: f.1 != []
  {
    TraceKeepsInv(policy, calls);
    FindIn(c.verifications, |c.receipts|);
  }

  // ---- Tables ----

  ghost function Since(cutoff: int): Row -> bool {
    (r: Row) => r.time >= cutoff
  }

  /** The failures that still count: none once the last one lies before the window. */
  ghost function Counting(rows: Rows, cutoff: int): Rows {
    if rows != [] && rows[|rows| - 1].time >= cutoff then Filter(rows, Since(cutoff)) else []
  }

  /** The failures under this key that still count. */
  ghost function Live(t: seq<(Key, Rows)>, key: Key, cutoff: int): Rows {
    match Find(t, key)
    case None => []
    case Some(rows) => Counting(rows, cutoff)
  }

  ghost function Stored(rows: Rows): Option<Rows> {
    if rows == [] then None else Some(rows)
  }

  lemma {:induction false} FilterSame(rows: Rows, p: Row -> bool, q: Row -> bool)
    requires forall r :: p(r) <==> q(r)
    ensures Filter(rows, p) == Filter(rows, q)
  {
    if rows != [] { FilterSame(rows[1..], p, q); }
  }

  lemma CountingExact(rows: Rows, cutoff: int)
    ensures LastSince(rows, cutoff) <==> Counting(rows, cutoff) != []
    ensures LastSince(rows, cutoff) ==> Filter(rows, InWindow(cutoff)) == Counting(rows, cutoff)
  {
    FilterSame(rows, InWindow(cutoff), Since(cutoff));
    if LastSince(rows, cutoff) { assert rows[|rows| - 1] in Filter(rows, Since(cutoff)); }
  }

  lemma FindCons<K, V>(first: (K, V), rest: seq<(K, V)>, key: K)
    ensures Find([first] + rest, key) == if first.0 == key then Some(first.1) else Find(rest, key)
  {
    assert ([first] + rest)[1..] == rest;
  }

  lemma {:induction false} PrunedKeys(t: seq<(Key, Rows)>, cutoff: int)
    requires Keyed(t)
    ensures Keyed(PruneFailures(t, cutoff)) && |PruneFailures(t, cutoff)| <= |t|
    ensures forall f | f in PruneFailures(t, cutoff) :: exists g :: g in t && g.0 == f.0
  {
    if t != [] {
      var first, rest := t[0], t[1..];
      var kept := PruneFailures(rest, cutoff);
      assert t == [first] + rest && [] + kept == kept;
      KeyedCons(first, rest);
      PrunedKeys(rest, cutoff);
      KeyedCons((first.0, Filter(first.1, InWindow(cutoff))), kept);
    }
  }

  lemma {:induction false} PrunedAt(t: seq<(Key, Rows)>, key: Key, cutoff: int)
    requires Keyed(t)
    ensures Find(PruneFailures(t, cutoff), key) == Stored(Live(t, key, cutoff))
  {
    if t != [] {
      var first, rest := t[0], t[1..];
      var kept := PruneFailures(rest, cutoff);
      assert t == [first] + rest && [] + kept == kept;
      KeyedCons(first, rest);
      PrunedAt(rest, key, cutoff);
      FindIn(rest, key);
      FindCons(first, rest, key);
      CountingExact(first.1, cutoff);
      FindCons((first.0, Counting(first.1, cutoff)), kept, key);
      assert PruneFailures(t, cutoff) == if LastSince(first.1, cutoff) then [(first.0, Counting(first.1, cutoff))] + kept else kept;
    }
  }

  lemma {:induction false} KeptAt<K, V>(t: seq<(K, V)>, p: V -> bool, key: K)
    requires Keyed(t)
    ensures Find(Keep(t, p), key) == if Find(t, key).Some? && p(Find(t, key).value) then Find(t, key) else None
  {
    if t != [] {
      var first, rest := t[0], t[1..];
      assert t == [first] + rest;
      KeyedCons(first, rest);
      KeptAt(rest, p, key);
      FindIn(rest, key);
    }
  }

  lemma {:induction false} PutAt<K, V>(t: seq<(K, V)>, key: K, value: V, other: K)
    ensures Find(Put(t, key, value), other) == if other == key then Some(value) else Find(t, other)
    ensures t != [] ==> Put(t, key, value) != [] && Put(t, key, value)[0].0 == t[0].0
  {
    if t != [] && t[0].0 != key { PutAt(t[1..], key, value, other); }
  }

  lemma {:induction false} RemovedAt<K, V>(t: seq<(K, V)>, key: K, other: K)
    requires Keyed(t)
    ensures Find(Remove(t, key), other) == if other == key then None else Find(t, other)
  {
    if t != [] {
      var first, rest := t[0], t[1..];
      assert t == [first] + rest;
      KeyedCons(first, rest);
      FindIn(rest, key);
      if first.0 != key { RemovedAt(rest, key, other); }
    }
  }

  /** A full table makes room for a new key by forgetting the one it has held longest. */
  ghost predicate Forgets<K, V>(t: seq<(K, V)>, key: K, other: K) {
    |t| == 128 && Find(t, key).None? && t[0].0 == other
  }

  lemma StoredAt<K, V>(t: seq<(K, V)>, key: K, value: V, other: K)
    requires Fits(t)
    ensures var after := Newest(Put(t, key, value), BOUND);
            Find(after, other) == if other == key then Some(value) else if Forgets(t, key, other) then None else Find(t, other)
  {
    var all := Put(t, key, value);
    PutKeyed(t, key, value);
    PutAt(t, key, value, other);
    FindIn(t, key);
    if |all| > 128 {
      assert all == [all[0]] + all[1..];
      KeyedCons(all[0], all[1..]);
      FindIn(all[1..], other);
      assert all[0].0 == t[0].0 && t[0].0 != key;
    }
  }

  // ---- The repairs ----

  /** The call is a successful edit of this file. */
  ghost predicate Edits(e: Call, file: (string, string)) {
    && e.callId != "" && e.success && e.scope == file.0 && e.path == Some(file.1)
    && (e.subject.name == "edit_file" || e.subject.name == "write_file" || e.subject.name == "append_file")
  }

  ghost function RecentStamp(c: Curator, file: (string, string), cutoff: int): Option<int> {
    if Find(c.repairs, file).Some? && Find(c.repairs, file).value >= cutoff then Find(c.repairs, file) else None
  }

  lemma JudgeKeepsRepairs(c: Curator, policy: Policy, cutoff: int, e: Call, at: nat)
    ensures Judge(c, policy, cutoff, e, at).0.repairs == c.repairs
  {
  }

  /** An edit is remembered with its time; other edits are forgotten only when they leave the window, or when a new
      file needs room in a full table. */
  lemma EditsRemembered(c: Curator, policy: Policy, calls: seq<Call>, e: Call, file: (string, string))
    requires Reached(c, policy, calls)
    ensures var cutoff, after := e.now - policy.window, Find(Observe(c, policy, e).0.repairs, file);
            && (Edits(e, file) ==> after == Some(e.now))
            && (!Edits(e, file) ==> after == RecentStamp(c, file, cutoff) || after == None)
            && ((forall any :: !Edits(e, any)) || |c.repairs| < 128 ==> !Edits(e, file) ==> after == RecentStamp(c, file, cutoff))
  {
    var cutoff := e.now - policy.window;
    var p := Prune(c, cutoff);
    ReachedFits(c, policy, calls);
    KeptAt(c.repairs, StampSince(cutoff), file);
    KeepKeyed(c.repairs, StampSince(cutoff));
    if e.callId != "" {
      JudgeKeepsRepairs(NoteRepair(p, e), policy, cutoff, e, c.seen);
      if e.success && e.subject.name in EDITS && e.path.Some? {
        assert Edits(e, (e.scope, e.path.value));
        StoredAt(p.repairs, (e.scope, e.path.value), e.now, file);
      }
    }
  }

  // ---- Failing calls ----

  /** The last `n` of the rows, or all of them when there are fewer. */
  ghost function LastRows(rows: Rows, n: nat): Rows {
    if |rows| <= n then rows else rows[|rows| - n..]
  }

  ghost predicate SeenCall(rows: Rows, callId: string) {
    exists r :: r in rows && r.callId == callId
  }

  /** What a failing call leaves under its own key: the failures still counting and itself, the last few of them, or
      just the former when this call is among them already. */
  ghost function WithFailure(rows: Rows, e: Call, serial: nat, repeat: nat): Rows
    requires e.operation.Some?
  {
    if SeenCall(rows, e.callId) then rows
    else LastRows(rows + [Row(e.now, e.callId, e.digest, e.operation.value, serial)], repeat)
  }

  lemma SeenCallIff(rows: Rows, callId: string)
    ensures HasCall(rows, callId) <==> SeenCall(rows, callId)
  {
    if HasCall(rows, callId) {
      var k :| 0 <= k < |rows| && rows[k].callId == callId;
      assert rows[k] in rows;
    }
  }

  /** The two receipt tables after a call that earns nothing. */
  ghost predicate NothingEarned(c: Curator, after: Curator, cutoff: int) {
    && after.receipts == c.receipts && after.seen == c.seen + 1
    && forall id :: Find(after.verifications, id) ==
         if Find(c.verifications, id).Some? && Find(c.verifications, id).value.time >= cutoff then Find(c.verifications, id) else None
  }

  lemma PruneEarnsNothing(c: Curator, cutoff: int)
    requires Keyed(c.verifications)
    ensures NothingEarned(c, Prune(c, cutoff), cutoff)
  {
    forall id ensures Find(Keep(c.verifications, VerifiedSince(cutoff)), id) ==
                      if Find(c.verifications, id).Some? && Find(c.verifications, id).value.time >= cutoff then Find(c.verifications, id) else None
    {
      KeptAt(c.verifications, VerifiedSince(cutoff), id);
    }
  }

  lemma StoresFailure(p: Curator, policy: Policy, e: Call, serial: nat, rows: Rows)
    requires Counts(e) && Stored(rows) == Find(p.failures, Key(e.scope, e.subject, e.fingerprint))
    ensures RecordFailure(p, policy, e, serial) ==
            p.(failures := Newest(Put(p.failures, Key(e.scope, e.subject, e.fingerprint), WithFailure(rows, e, serial, policy.repeat)), BOUND))
  {
    SeenCallIff(rows, e.callId);
  }

  lemma ObservesFailure(c: Curator, policy: Policy, e: Call)
    requires Counts(e) && Keyed(c.failures)
    ensures var (cutoff, key) := (e.now - policy.window, Key(e.scope, e.subject, e.fingerprint));
            var t, rows := PruneFailures(c.failures, cutoff), WithFailure(Live(c.failures, key, cutoff), e, c.seen, policy.repeat);
            Observe(c, policy, e) == (Prune(c, cutoff).(failures := Newest(Put(t, key, rows), BOUND)), None)
  {
    var cutoff, key := e.now - policy.window, Key(e.scope, e.subject, e.fingerprint);
    PrunedAt(c.failures, key, cutoff);
    StoresFailure(Prune(c, cutoff), policy, e, c.seen, Live(c.failures, key, cutoff));
  }

  lemma StoredAfterPruning(t: seq<(Key, Rows)>, key: Key, rows: Rows, cutoff: int, other: Key)
    requires Fits(t)
    ensures Find(Newest(Put(PruneFailures(t, cutoff), key, rows), BOUND), other) ==
            if other == key then Some(rows)
            else if Forgets(PruneFailures(t, cutoff), key, other) then None
            else Stored(Live(t, other, cutoff))
  {
    PrunedKeys(t, cutoff);
    PrunedAt(t, other, cutoff);
    StoredAt(PruneFailures(t, cutoff), key, rows, other);
  }

  lemma UnderAfterFailure(c: Curator, policy: Policy, calls: seq<Call>, e: Call, other: Key)
    requires Reached(c, policy, calls) && Counts(e)
    ensures var (cutoff, key) := (e.now - policy.window, Key(e.scope, e.subject, e.fingerprint));
            Find(Observe(c, policy, e).0.failures, other) ==
            if other == key then Some(WithFailure(Live(c.failures, key, cutoff), e, c.seen, policy.repeat))
            else if Forgets(PruneFailures(c.failures, cutoff), key, other) then None
            else Stored(Live(c.failures, other, cutoff))
  {
    var cutoff, key := e.now - policy.window, Key(e.scope, e.subject, e.fingerprint);
    ReachedFits(c, policy, calls);
    ObservesFailure(c, policy, e);
    StoredAfterPruning(c.failures, key, WithFailure(Live(c.failures, key, cutoff), e, c.seen, policy.repeat), cutoff, other);
  }

  /** A failing call that counts is stored under its key. Failures under other keys stay as far as they still count,
      except that a full table forgets one key to make room for a new one; nothing is earned. */
  lemma FailureStored(c: Curator, policy: Policy, calls: seq<Call>, e: Call, other: Key)
    requires Reached(c, policy, calls) && Counts(e)
    ensures Observe(c, policy, e).1 == None && NothingEarned(c, Observe(c, policy, e).0, e.now - policy.window)
    ensures var (cutoff, key) := (e.now - policy.window, Key(e.scope, e.subject, e.fingerprint));
            Find(Observe(c, policy, e).0.failures, other) ==
            if other == key then Some(WithFailure(Live(c.failures, key, cutoff), e, c.seen, policy.repeat))
            else if Forgets(PruneFailures(c.failures, cutoff), key, other) then None
            else Stored(Live(c.failures, other, cutoff))
  {
    ReachedFits(c, policy, calls);
    UnderAfterFailure(c, policy, calls, e, other);
    ObservesFailure(c, policy, e);
    PruneEarnsNothing(c, e.now - policy.window);
  }

  /** Any other failing call, and one without an id or an identity, only lets old failures go. */
  lemma QuietCall(c: Curator, policy: Policy, calls: seq<Call>, e: Call, key: Key)
    requires Reached(c, policy, calls) && !Counts(e) && (!e.success || !Verifies(e))
    ensures var (after, receipt) := Observe(c, policy, e);
            && receipt == None && NothingEarned(c, after, e.now - policy.window)
            && Find(after.failures, key) == Stored(Live(c.failures, key, e.now - policy.window))
  {
    var p := Prune(c, e.now - policy.window);
    ReachedFits(c, policy, calls);
    PrunedAt(c.failures, key, e.now - policy.window);
    PruneEarnsNothing(c, e.now - policy.window);
    StaysQuiet(c, policy, e);
  }

  lemma StaysQuiet(c: Curator, policy: Policy, e: Call)
    requires !Counts(e) && (!e.success || !Verifies(e))
    ensures var p := Prune(c, e.now - policy.window);
            Observe(c, policy, e) == (p.(repairs := Observe(c, policy, e).0.repairs), None)
  {
  }

  // ---- Successful calls ----

  /** A successful call that may earn a receipt. */
  ghost predicate Verifies(e: Call) {
    e.success && e.callId != "" && !("memory_" <= e.subject.name) && !e.forbidden && e.operation.Some?
  }

  /** Some file the operation is anchored to was edited after this time, as far as the curator remembers. */
  ghost predicate AnchorEdited(after: Curator, e: Call, time: int)
    requires e.operation.Some?
  {
    exists path :: path in e.operation.value.anchors &&
      Find(after.repairs, (e.scope, path)).Some? && Find(after.repairs, (e.scope, path)).value > time
  }

  /** These failures entitle the call to a receipt: enough of them, of its own operation and by other calls; and since
      the last one the call was changed or a file was edited. */
  ghost predicate EntitlesBy(after: Curator, policy: Policy, e: Call, key: Key, rows: Rows)
    requires e.operation.Some?
  {
    && key.scope == e.scope && key.subject == e.subject
    && |rows| >= policy.repeat && rows != []
    && (forall r | r in rows :: r.operation == e.operation.value && r.callId != e.callId)
    && (rows[|rows| - 1].digest != e.digest || AnchorEdited(after, e, rows[|rows| - 1].time))
  }

  /** The failures under this key that still count entitle the call to a receipt. */
  ghost predicate Entitles(c: Curator, after: Curator, policy: Policy, e: Call, key: Key)
    requires e.operation.Some?
  {
    EntitlesBy(after, policy, e, key, Live(c.failures, key, e.now - policy.window))
  }

  lemma ObservesSuccess(c: Curator, policy: Policy, e: Call)
    requires Verifies(e)
    ensures Observe(c, policy, e) ==
            Verify(NoteRepair(Prune(c, e.now - policy.window), e), policy, e.now - policy.window, e, c.seen)
  {
  }

  /** The curator as it judges the call: pruned, and with the call's own edit noted. */
  ghost predicate IsJudged(c: Curator, j: Curator, cutoff: int) {
    && j.failures == PruneFailures(c.failures, cutoff)
    && j.verifications == Keep(c.verifications, VerifiedSince(cutoff))
    && j.receipts == c.receipts && j.seen == c.seen + 1
  }

  lemma JudgedFields(c: Curator, cutoff: int, e: Call)
    ensures IsJudged(c, NoteRepair(Prune(c, cutoff), e), cutoff)
  {
  }

  /** The state after a receipt has been issued to the call for the failures under this key. */
  ghost predicate IsIssued(j: Curator, after: Curator, e: Call, at: nat, key: Key, rows: Rows) {
    && after.failures == Remove(j.failures, key)
    && after.verifications == Newest(Put(j.verifications, |j.receipts|,
         Verification(e.now, key.fingerprint, [e.subject] + e.skills, e.callId, e.digest)), BOUND)
    && after.receipts == j.receipts + [Receipt(e, at, key, rows)]
    && after.repairs == j.repairs && after.seen == j.seen
  }

  ghost predicate LatestOf(list: seq<(Key, Rows)>, f: (Key, Rows)) {
    f in list && forall g | g in list :: LastTime(g.1) <= LastTime(f.1)
  }

  lemma RepairedIff(after: Curator, e: Call, cutoff: int, time: int)
    requires e.operation.Some? && time >= cutoff
    ensures RepairedSince(after.repairs, e.scope, e.operation.value.anchors, cutoff, time) <==> AnchorEdited(after, e, time)
  {
    var anchors := e.operation.value.anchors;
    if RepairedSince(after.repairs, e.scope, anchors, cutoff, time) {
      var k :| 0 <= k < |anchors| &&
        (var stamp := Find(after.repairs, (e.scope, anchors[k])); (if stamp.Some? then stamp.value else cutoff) > time);
      assert anchors[k] in anchors;
    }
    if AnchorEdited(after, e, time) {
      var path :| path in anchors &&
        Find(after.repairs, (e.scope, path)).Some? && Find(after.repairs, (e.scope, path)).value > time;
      var k :| 0 <= k < |anchors| && anchors[k] == path;
      assert Find(after.repairs, (e.scope, anchors[k])).value > time;
    }
  }

  lemma SameOperation(rows: Rows, e: Call)
    requires e.operation.Some?
    ensures (forall r | r in rows :: r.operation == e.operation.value && r.callId != e.callId) <==>
            !HasCall(rows, e.callId) && forall k | 0 <= k < |rows| :: rows[k].operation == e.operation.value
  {
    SeenCallIff(rows, e.callId);
    assert forall k | 0 <= k < |rows| :: rows[k] in rows;
  }

  lemma EligibleByIff(after: Curator, policy: Policy, cutoff: int, e: Call, key: Key, rows: Rows)
    requires e.operation.Some? && (rows != [] ==> rows[|rows| - 1].time >= cutoff)
    ensures Eligible(after.repairs, policy, cutoff, e, key, rows) <==> EntitlesBy(after, policy, e, key, rows)
  {
    SameOperation(rows, e);
    if rows != [] { RepairedIff(after, e, cutoff, rows[|rows| - 1].time); }
  }

  lemma EligibleIff(c: Curator, after: Curator, policy: Policy, e: Call, key: Key)
    requires e.operation.Some?
    ensures var (cutoff, rows) := (e.now - policy.window, Live(c.failures, key, e.now - policy.window));
            Eligible(after.repairs, policy, cutoff, e, key, rows) <==> Entitles(c, after, policy, e, key)
  {
    var cutoff, rows := e.now - policy.window, Live(c.failures, key, e.now - policy.window);
    if rows != [] { assert rows[|rows| - 1] in rows; }
    EligibleByIff(after, policy, cutoff, e, key, rows);
  }

  lemma PrunedHas(t: seq<(Key, Rows)>, key: Key, rows: Rows, cutoff: int)
    requires Keyed(t)
    ensures (key, rows) in PruneFailures(t, cutoff) <==> rows != [] && rows == Live(t, key, cutoff)
  {
    var p := PruneFailures(t, cutoff);
    PrunedKeys(t, cutoff);
    PrunedAt(t, key, cutoff);
    FindIn(p, key);
    if (key, rows) in p { FoundIs(p, (key, rows)); }
  }

  /** The receipt that a call earns by the failures under this key. */
  ghost predicate Earns(c: Curator, after: Curator, policy: Policy, e: Call, key: Key) {
    var (cutoff, id) := (e.now - policy.window, |c.receipts|);
    && after.receipts == c.receipts + [Receipt(e, c.seen, key, Live(c.failures, key, cutoff))]
    && after.seen == c.seen + 1
    && (forall other :: Find(after.failures, other) == if other == key then None else Stored(Live(c.failures, other, cutoff)))
    && Find(after.verifications, id) == Some(Verification(e.now, key.fingerprint, [e.subject] + e.skills, e.callId, e.digest))
  }

  lemma RemovedAfterPruning(t: seq<(Key, Rows)>, key: Key, cutoff: int, other: Key)
    requires Keyed(t)
    ensures Find(Remove(PruneFailures(t, cutoff), key), other) == if other == key then None else Stored(Live(t, other, cutoff))
  {
    PrunedKeys(t, cutoff);
    PrunedAt(t, other, cutoff);
    RemovedAt(PruneFailures(t, cutoff), key, other);
  }

  lemma IssuedEarns(c: Curator, j: Curator, after: Curator, policy: Policy, calls: seq<Call>, e: Call, key: Key)
    requires Reached(c, policy, calls) && IsJudged(c, j, e.now - policy.window)
    requires IsIssued(j, after, e, c.seen, key, Live(c.failures, key, e.now - policy.window))
    ensures Earns(c, after, policy, e, key)
  {
    var cutoff := e.now - policy.window;
    ReachedFits(c, policy, calls);
    forall other ensures Find(after.failures, other) == if other == key then None else Stored(Live(c.failures, other, cutoff)) {
      RemovedAfterPruning(c.failures, key, cutoff, other);
    }
    KeepKeyed(c.verifications, VerifiedSince(cutoff));
    var v := Verification(e.now, key.fingerprint, [e.subject] + e.skills, e.callId, e.digest);
    StoredAt(j.verifications, |c.receipts|, v, |c.receipts|);
  }

  /** The last failure under `a` is no later than the last one under `b`. */
  ghost predicate NoLater(a: Rows, b: Rows) {
    a != [] && b != [] ==> a[|a| - 1].time <= b[|b| - 1].time
  }

  /** Nobody else that is entitled failed later. */
  ghost predicate LatestEntitled(c: Curator, after: Curator, policy: Policy, e: Call, key: Key)
    requires e.operation.Some?
  {
    var cutoff := e.now - policy.window;
    && Entitles(c, after, policy, e, key)
    && forall other | Entitles(c, after, policy, e, other) :: NoLater(Live(c.failures, other, cutoff), Live(c.failures, key, cutoff))
  }

  /** The list holds exactly the keys that entitle the call, each with its failures. */
  ghost predicate ListsEntitled(c: Curator, after: Curator, policy: Policy, e: Call, list: seq<(Key, Rows)>)
    requires e.operation.Some?
  {
    && (forall f | f in list :: Entitles(c, after, policy, e, f.0) && f.1 == Live(c.failures, f.0, e.now - policy.window))
    && (forall key | Entitles(c, after, policy, e, key) :: (key, Live(c.failures, key, e.now - policy.window)) in list)
  }

  lemma EligibleIsEntitled(c: Curator, after: Curator, policy: Policy, e: Call, key: Key, rows: Rows)
    requires Keyed(c.failures) && e.operation.Some?
    requires (key, rows) in PruneFailures(c.failures, e.now - policy.window)
    requires Eligible(after.repairs, policy, e.now - policy.window, e, key, rows)
    ensures Entitles(c, after, policy, e, key) && rows == Live(c.failures, key, e.now - policy.window)
  {
    PrunedHas(c.failures, key, rows, e.now - policy.window);
    EligibleIff(c, after, policy, e, key);
  }

  lemma EntitledIsEligible(c: Curator, after: Curator, policy: Policy, e: Call, key: Key)
    requires Keyed(c.failures) && e.operation.Some? && Entitles(c, after, policy, e, key)
    ensures var (cutoff, rows) := (e.now - policy.window, Live(c.failures, key, e.now - policy.window));
            (key, rows) in PruneFailures(c.failures, cutoff) && Eligible(after.repairs, policy, cutoff, e, key, rows)
  {
    PrunedHas(c.failures, key, Live(c.failures, key, e.now - policy.window), e.now - policy.window);
    EligibleIff(c, after, policy, e, key);
  }

  lemma CandidatesAreEntitled(c: Curator, after: Curator, policy: Policy, e: Call, list: seq<(Key, Rows)>)
    requires Keyed(c.failures) && e.operation.Some?
    requires forall f :: f in list <==>
               f in PruneFailures(c.failures, e.now - policy.window)
               && Eligible(after.repairs, policy, e.now - policy.window, e, f.0, f.1)
    ensures ListsEntitled(c, after, policy, e, list)
  {
    forall f | f in list ensures Entitles(c, after, policy, e, f.0) && f.1 == Live(c.failures, f.0, e.now - policy.window) {
      assert f == (f.0, f.1);
      EligibleIsEntitled(c, after, policy, e, f.0, f.1);
    }
    forall key | Entitles(c, after, policy, e, key) ensures (key, Live(c.failures, key, e.now - policy.window)) in list {
      EntitledIsEligible(c, after, policy, e, key);
    }
  }

  /** A receipt is issued exactly when some key entitles the call, and then by the one that failed last among those. */
  ghost predicate EarnedRightly(c: Curator, after: Curator, receipt: Option<nat>, policy: Policy, e: Call)
    requires e.operation.Some?
  {
    && (receipt.Some? <==> exists key :: Entitles(c, after, policy, e, key))
    && (receipt.Some? ==> receipt.value == |c.receipts|)
    && (receipt.Some? ==> exists key :: LatestEntitled(c, after, policy, e, key) && Earns(c, after, policy, e, key))
    && (receipt.None? ==> NothingEarned(c, after, e.now - policy.window))
    && (receipt.None? ==> forall key :: Find(after.failures, key) == Stored(Live(c.failures, key, e.now - policy.window)))
  }

  lemma CandidatesListed(c: Curator, j: Curator, after: Curator, policy: Policy, e: Call, list: seq<(Key, Rows)>)
    requires Keyed(c.failures) && e.operation.Some? && IsJudged(c, j, e.now - policy.window) && after.repairs == j.repairs
    requires list == Candidates(j.repairs, policy, e.now - policy.window, e, j.failures)
    ensures ListsEntitled(c, after, policy, e, list)
  {
    CandidatesAreEntitled(c, after, policy, e, list);
  }

  lemma IssuedRightly(c: Curator, j: Curator, after: Curator, receipt: Option<nat>, policy: Policy, calls: seq<Call>, e: Call,
                      list: seq<(Key, Rows)>, f: (Key, Rows))
    requires Reached(c, policy, calls) && e.operation.Some? && IsJudged(c, j, e.now - policy.window)
    requires IsIssued(j, after, e, c.seen, f.0, f.1) && receipt == Some(|j.receipts|)
    requires ListsEntitled(c, after, policy, e, list) && LatestOf(list, f)
    ensures EarnedRightly(c, after, receipt, policy, e)
  {
    IssuedEarns(c, j, after, policy, calls, e, f.0);
    LatestEarnsRightly(c, after, policy, e, list, f);
  }

  lemma NothingRightly(c: Curator, j: Curator, receipt: Option<nat>, policy: Policy, calls: seq<Call>, e: Call)
    requires Reached(c, policy, calls) && e.operation.Some? && IsJudged(c, j, e.now - policy.window)
    requires ListsEntitled(c, j, policy, e, []) && receipt == None
    ensures EarnedRightly(c, j, receipt, policy, e)
  {
    ReachedFits(c, policy, calls);
    JudgedEarnsNothing(c, j, policy, e);
  }

  /** The first of the candidates that failed last is the one a receipt is issued for; without candidates, none is. */
  ghost predicate Settles(j: Curator, after: Curator, receipt: Option<nat>, e: Call, at: nat, list: seq<(Key, Rows)>, f: (Key, Rows)) {
    && (list == [] ==> after == j && receipt == None)
    && (list != [] ==> LatestOf(list, f) && IsIssued(j, after, e, at, f.0, f.1) && receipt == Some(|j.receipts|))
  }

  lemma VerifySettles(j: Curator, policy: Policy, cutoff: int, e: Call, at: nat) returns (f: (Key, Rows))
    requires e.operation.Some?
    ensures Settles(j, Verify(j, policy, cutoff, e, at).0, Verify(j, policy, cutoff, e, at).1, e, at,
                    Candidates(j.repairs, policy, cutoff, e, j.failures), f)
  {
    var list := Candidates(j.repairs, policy, cutoff, e, j.failures);
    f := if list == [] then (Key("", e.subject, ""), []) else list[Latest(list)];
  }

  lemma SettledRightly(c: Curator, j: Curator, after: Curator, receipt: Option<nat>, policy: Policy, calls: seq<Call>, e: Call,
                       list: seq<(Key, Rows)>, f: (Key, Rows))
    requires Reached(c, policy, calls) && e.operation.Some? && IsJudged(c, j, e.now - policy.window)
    requires list == Candidates(j.repairs, policy, e.now - policy.window, e, j.failures)
    requires Settles(j, after, receipt, e, c.seen, list, f)
    ensures EarnedRightly(c, after, receipt, policy, e)
  {
    ReachedFits(c, policy, calls);
    CandidatesListed(c, j, after, policy, e, list);
    if list == [] {
      NothingRightly(c, after, receipt, policy, calls, e);
    } else {
      IssuedRightly(c, j, after, receipt, policy, calls, e, list, f);
    }
  }

  lemma ObserveSettles(c: Curator, policy: Policy, e: Call, cutoff: int) returns (j: Curator, f: (Key, Rows))
    requires Verifies(e) && cutoff == e.now - policy.window
    ensures IsJudged(c, j, cutoff)
    ensures Settles(j, Observe(c, policy, e).0, Observe(c, policy, e).1, e, c.seen, Candidates(j.repairs, policy, cutoff, e, j.failures), f)
  {
    j := NoteRepair(Prune(c, cutoff), e);
    ObservesSuccess(c, policy, e);
    JudgedFields(c, cutoff, e);
    f := VerifySettles(j, policy, cutoff, e, c.seen);
  }

  lemma LatestEarnsRightly(c: Curator, after: Curator, policy: Policy, e: Call, list: seq<(Key, Rows)>, f: (Key, Rows))
    requires e.operation.Some? && ListsEntitled(c, after, policy, e, list) && LatestOf(list, f)
    requires Earns(c, after, policy, e, f.0)
    ensures EarnedRightly(c, after, Some(|c.receipts|), policy, e)
  {
    assert LatestEntitled(c, after, policy, e, f.0);
  }

  lemma JudgedEarnsNothing(c: Curator, j: Curator, policy: Policy, e: Call)
    requires Keyed(c.failures) && Keyed(c.verifications) && IsJudged(c, j, e.now - policy.window)
    ensures NothingEarned(c, j, e.now - policy.window)
    ensures forall key :: Find(j.failures, key) == Stored(Live(c.failures, key, e.now - policy.window))
  {
    PruneEarnsNothing(c, e.now - policy.window);
    forall key ensures Find(j.failures, key) == Stored(Live(c.failures, key, e.now - policy.window)) {
      PrunedAt(c.failures, key, e.now - policy.window);
    }
  }

  /** A successful call earns a receipt exactly when some key entitles it, and then by the key that failed last among
      those that do; the failures it rests on leave the table, and the evidence can be looked up under its number. One
      that earns nothing leaves everything as it is, up to what has left the window. */
  lemma EarnedIffEntitled(c: Curator, policy: Policy, calls: seq<Call>, e: Call)
    requires Reached(c, policy, calls) && Verifies(e)
    ensures EarnedRightly(c, Observe(c, policy, e).0, Observe(c, policy, e).1, policy, e)
  {
    var cutoff := e.now - policy.window;
    var j, f := ObserveSettles(c, policy, e, cutoff);
    SettledRightly(c, j, Observe(c, policy, e).0, Observe(c, policy, e).1, policy, calls, e,
                   Candidates(j.repairs, policy, cutoff, e, j.failures), f);
  }

  // ---- Looking a receipt up ----

  /** The subject has the wanted kind and name, and the wanted version where one is wanted. */
  ghost predicate Fulfils(s: Subject, wanted: Subject) {
    s.kind == wanted.kind && s.name == wanted.name && (wanted.version != "" ==> s.version == wanted.version)
  }

  lemma {:induction false} FirstFulfils(subjects: seq<Subject>, wanted: Subject, k: nat)
    ensures (FirstSpeaker(subjects, wanted) == None <==> forall s | s in subjects :: !Fulfils(s, wanted))
    ensures k < |subjects| && Fulfils(subjects[k], wanted) && (forall j | 0 <= j < k :: !Fulfils(subjects[j], wanted)) ==>
              FirstSpeaker(subjects, wanted) == Some(subjects[k])
  {
    if subjects != [] {
      FirstFulfils(subjects[1..], wanted, if k > 0 then k - 1 else 0);
      assert subjects == [subjects[0]] + subjects[1..];
      assert Speaks(subjects[0], wanted) <==> Fulfils(subjects[0], wanted);
      forall s ensures s in subjects <==> s == subjects[0] || s in subjects[1..] { MemberCons(subjects[0], subjects[1..], s); }
      assert FirstSpeaker(subjects, wanted) == if Fulfils(subjects[0], wanted) then Some(subjects[0]) else FirstSpeaker(subjects[1..], wanted);
    }
  }

  /** A lookup is answered by the evidence stored under the number: it must be in the window, and about this failure;
      the first of its subjects that fulfils what is wanted is the one accepted. */
  lemma LookupIff(c: Curator, policy: Policy, now: int, receipt: nat, wanted: Subject, fingerprint: string, k: nat)
    ensures var (r, record) := (VerificationFor(c, policy, now, receipt, wanted, fingerprint), Find(c.verifications, receipt));
            var current := record.Some? && record.value.time >= now - policy.window;
            && (r == MissingOrExpired <==> !current)
            && (r == OtherFailure <==> current && record.value.fingerprint != fingerprint)
            && (r == OtherSubject <==> current && record.value.fingerprint == fingerprint
                                       && forall s | s in record.value.subjects :: !Fulfils(s, wanted))
            && (current && record.value.fingerprint == fingerprint && k < |record.value.subjects|
                && Fulfils(record.value.subjects[k], wanted) && (forall j | 0 <= j < k :: !Fulfils(record.value.subjects[j], wanted))
                ==> r == Accepted(record.value.subjects[k], record.value))
  {
    var record := Find(c.verifications, receipt);
    if record.Some? { FirstFulfils(record.value.subjects, wanted, k); }
  }
}
