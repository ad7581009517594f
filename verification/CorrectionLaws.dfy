/** Every receipt uses up failing calls of the trace that no other receipt uses, over every trace of calls. */
module CorrectionLaws {
  import opened Ordering
  import opened Tables
  import opened Correction
  import opened Optional

  // ---- The calls behind the stored failures ----

  /** A failing call that is worth counting. */
  predicate Counts(e: Call) {
    && !e.success && e.callId != "" && !("memory_" <= e.subject.name) && !e.forbidden
    && e.operation.Some? && e.fingerprint != ""
  }

  /** How many of the calls count as failures. */
  function Failures(calls: seq<Call>): nat {
    if calls == [] then 0
    else Failures(calls[..|calls| - 1]) + if Counts(calls[|calls| - 1]) then 1 else 0
  }

  /** The stored failure is one of the calls: a failing one of this scope, subject and fingerprint. */
  ghost predicate Recorded(calls: seq<Call>, key: Key, row: Row) {
    && row.serial < |calls|
    && var e := calls[row.serial]; Counts(e) && key == Key(e.scope, e.subject, e.fingerprint) && row == RowOf(e, row.serial)
  }

  /** One of the calls edited this file at this time. */
  ghost predicate Edited(calls: seq<Call>, scope: string, path: string, time: int) {
    exists e :: e in calls && e.success && e.callId != "" && e.subject.name in EDITS && e.path == Some(path)
                && e.scope == scope && e.now == time
  }

  // ---- Which failures are still counted, and which ones a receipt has used up ----

  /** All the failures a table holds. */
  ghost function Held(t: seq<(Key, Rows)>): multiset<Row> {
    if t == [] then multiset{} else multiset(t[0].1) + Held(t[1..])
  }

  ghost function Spent(receipts: seq<Receipt>): multiset<Row> {
    if receipts == [] then multiset{}
    else Spent(receipts[..|receipts| - 1]) + multiset(receipts[|receipts| - 1].rows)
  }

  ghost function Used(c: Curator): multiset<Row> {
    Held(c.failures) + Spent(c.receipts)
  }

  /** Every stored or used failure is there once, and belongs to a call that was observed. */
  ghost predicate Accounted(u: multiset<Row>, calls: seq<Call>) {
    forall r | r in u :: u[r] == 1 && r.serial < |calls|
  }

  ghost predicate DistinctCalls(rows: Rows) {
    forall j, k | 0 <= j < k < |rows| :: rows[j].callId != rows[k].callId
  }

  ghost predicate GoodRows(rows: Rows, policy: Policy) {
    rows != [] && |rows| <= policy.repeat && DistinctCalls(rows)
  }

  ghost predicate AllRecorded(calls: seq<Call>, key: Key, rows: Rows) {
    forall r | r in rows :: Recorded(calls, key, r)
  }

  /** The call differs from the last failure, or a file it is anchored to was edited after that failure. */
  ghost predicate Changed(r: Receipt, before: seq<Call>)
    requires r.rows != [] && r.call.operation.Some?
  {
    var last := r.rows[|r.rows| - 1];
    || last.digest != r.call.digest
    || exists path, time :: path in r.call.operation.value.anchors && time > last.time
                            && Edited(before + [r.call], r.call.scope, path, time)
  }

  /** A receipt rests on exactly as many failures as the policy asks for. They are earlier calls of the trace, of the
      receipt's fingerprint and of the same scope, subject and operation as the call that succeeded, all of them
      different calls and inside the window. */
  ghost predicate Earned(r: Receipt, policy: Policy, before: seq<Call>) {
    && r.call.success && r.call.operation.Some?
    && r.key.scope == r.call.scope && r.key.subject == r.call.subject
    && |r.rows| == policy.repeat && r.rows != [] && DistinctCalls(r.rows)
    && AllRecorded(before, r.key, r.rows)
    && Changed(r, before)
    && forall k | 0 <= k < |r.rows| ::
         && r.rows[k].time >= r.call.now - policy.window
         && r.rows[k].operation == r.call.operation.value
         && r.rows[k].callId != r.call.callId
  }

  /** The receipt's call is in the trace, and the calls before it earn the receipt. */
  ghost predicate GoodReceipt(r: Receipt, policy: Policy, calls: seq<Call>) {
    r.at < |calls| && calls[r.at] == r.call && Earned(r, policy, calls[..r.at])
  }

  ghost predicate Backed(v: (int, Verification), receipts: seq<Receipt>) {
    && 0 <= v.0 < |receipts|
    && var r := receipts[v.0];
       v.1 == Verification(r.call.now, r.key.fingerprint, [r.call.subject] + r.call.skills, r.call.callId, r.call.digest)
  }

  ghost predicate FailuresFine(t: seq<(Key, Rows)>, policy: Policy, calls: seq<Call>) {
    Keyed(t) && |t| <= BOUND && forall f | f in t :: GoodRows(f.1, policy) && AllRecorded(calls, f.0, f.1)
  }

  ghost predicate RepairsFine(t: seq<((string, string), int)>, calls: seq<Call>) {
    Keyed(t) && |t| <= BOUND && forall f | f in t :: Edited(calls, f.0.0, f.0.1, f.1)
  }

  ghost predicate VerificationsFine(t: seq<(int, Verification)>, receipts: seq<Receipt>) {
    Keyed(t) && |t| <= BOUND && forall v | v in t :: Backed(v, receipts)
  }

  ghost predicate ReceiptsFine(receipts: seq<Receipt>, policy: Policy, calls: seq<Call>) {
    forall r | r in receipts :: GoodReceipt(r, policy, calls)
  }

  /** The state after these calls; the edits may include the call that is being observed. */
  ghost predicate Mid(c: Curator, policy: Policy, calls: seq<Call>, edits: seq<Call>) {
    && FailuresFine(c.failures, policy, calls)
    && RepairsFine(c.repairs, edits)
    && VerificationsFine(c.verifications, c.receipts)
    && ReceiptsFine(c.receipts, policy, calls)
    && Accounted(Used(c), calls)
  }

  ghost predicate Inv(c: Curator, policy: Policy, calls: seq<Call>) {
    Mid(c, policy, calls, calls)
  }

  // ---- Rows only move, or are forgotten ----

  lemma Fewer(u': multiset<Row>, u: multiset<Row>, calls: seq<Call>)
    requires Accounted(u, calls) && u' <= u
    ensures Accounted(u', calls)
  {
    assert u == u' + (u - u');
    forall r | r in u' ensures u'[r] == 1 && r.serial < |calls| {
      assert r in u && u'[r] <= u[r];
    }
  }

  lemma OneMore(u': multiset<Row>, u: multiset<Row>, calls: seq<Call>, e: Call)
    requires Accounted(u, calls) && Counts(e) && u' <= u + multiset{RowOf(e, |calls|)}
    ensures Accounted(u', calls + [e])
  {
    var row := RowOf(e, |calls|);
    var v := u + multiset{row};
    assert row !in u;
    forall r | r in v ensures v[r] == 1 && r.serial <= |calls| && (r == row || r in u) {
      assert r in u || r == row;
    }
    Fewer(u', v, calls + [e]);
  }

  lemma FilterFewer(rows: Rows, cutoff: int)
    ensures multiset(Filter(rows, InWindow(cutoff))) <= multiset(rows)
  {
    FilterSplits(rows, InWindow(cutoff));
  }

  lemma HeldCons(first: (Key, Rows), rest: seq<(Key, Rows)>)
    ensures Held([first] + rest) == multiset(first.1) + Held(rest)
  {
    assert ([first] + rest)[1..] == rest;
  }

  lemma {:induction false} PruneFewer(t: seq<(Key, Rows)>, cutoff: int)
    ensures Held(PruneFailures(t, cutoff)) <= Held(t)
  {
    if t != [] {
      var rest := PruneFailures(t[1..], cutoff);
      PruneFewer(t[1..], cutoff);
      if LastSince(t[0].1, cutoff) {
        FilterFewer(t[0].1, cutoff);
        HeldCons((t[0].0, Filter(t[0].1, InWindow(cutoff))), rest);
      } else {
        assert [] + rest == rest;
        assert PruneFailures(t, cutoff) == rest;
      }
    }
  }

  ghost function RowsAt(t: seq<(Key, Rows)>, key: Key): multiset<Row> {
    multiset(if Find(t, key).Some? then Find(t, key).value else [])
  }

  lemma AddBoth(m: multiset<Row>, a: multiset<Row>, b: multiset<Row>, c: multiset<Row>, d: multiset<Row>)
    requires a + b == c + d
    ensures m + a + b == m + c + d
  {
    assert m + a + b == m + (a + b) && m + c + d == m + (c + d);
  }

  lemma {:induction false} PutRows(t: seq<(Key, Rows)>, key: Key, rows: Rows)
    ensures Held(Put(t, key, rows)) + RowsAt(t, key) == Held(t) + multiset(rows)
  {
    if t == [] {
      HeldCons((key, rows), []);
      assert [(key, rows)] + [] == [(key, rows)];
    } else if t[0].0 == key {
      HeldCons((key, rows), t[1..]);
    } else {
      PutRows(t[1..], key, rows);
      HeldCons(t[0], Put(t[1..], key, rows));
      AddBoth(multiset(t[0].1), Held(Put(t[1..], key, rows)), RowsAt(t[1..], key), Held(t[1..]), multiset(rows));
    }
  }

  lemma {:induction false} RemoveRows(t: seq<(Key, Rows)>, key: Key)
    ensures Held(Remove(t, key)) + RowsAt(t, key) == Held(t)
  {
    if t != [] && t[0].0 != key {
      RemoveRows(t[1..], key);
      HeldCons(t[0], Remove(t[1..], key));
    }
  }

  lemma {:induction false} DropRows(t: seq<(Key, Rows)>, k: nat)
    requires k <= |t|
    ensures Held(t[k..]) <= Held(t)
  {
    if k == 0 {
      assert t[0..] == t;
    } else {
      DropRows(t[1..], k - 1);
      assert t[k..] == t[1..][k - 1..];
    }
  }

  lemma NewestRows(t: seq<(Key, Rows)>, n: nat)
    ensures Held(Newest(t, n)) <= Held(t)
  {
    if |t| > n { DropRows(t, |t| - n); }
  }

  lemma NewestFewer(rows: Rows, n: nat)
    ensures multiset(Newest(rows, n)) <= multiset(rows)
  {
    if |rows| > n { assert rows == rows[..|rows| - n] + rows[|rows| - n..]; }
  }

  // ---- What was recorded stays recorded ----

  lemma RecordedGrows(calls: seq<Call>, e: Call, key: Key, rows: Rows)
    requires AllRecorded(calls, key, rows)
    ensures AllRecorded(calls + [e], key, rows)
  {
    forall r | r in rows ensures Recorded(calls + [e], key, r) {
      assert (calls + [e])[r.serial] == calls[r.serial];
    }
  }

  lemma EditedGrows(calls: seq<Call>, e: Call, scope: string, path: string, time: int)
    requires Edited(calls, scope, path, time)
    ensures Edited(calls + [e], scope, path, time)
  {
  }

  lemma RepairsGrow(t: seq<((string, string), int)>, calls: seq<Call>, e: Call)
    requires RepairsFine(t, calls)
    ensures RepairsFine(t, calls + [e])
  {
    forall f | f in t ensures Edited(calls + [e], f.0.0, f.0.1, f.1) { EditedGrows(calls, e, f.0.0, f.0.1, f.1); }
  }

  lemma FailuresGrow(t: seq<(Key, Rows)>, policy: Policy, calls: seq<Call>, e: Call)
    requires FailuresFine(t, policy, calls)
    ensures FailuresFine(t, policy, calls + [e])
  {
    forall f | f in t ensures AllRecorded(calls + [e], f.0, f.1) { RecordedGrows(calls, e, f.0, f.1); }
  }

  lemma ReceiptsGrow(receipts: seq<Receipt>, policy: Policy, calls: seq<Call>, e: Call)
    requires ReceiptsFine(receipts, policy, calls)
    ensures ReceiptsFine(receipts, policy, calls + [e])
  {
    forall r | r in receipts ensures GoodReceipt(r, policy, calls + [e]) {
      assert (calls + [e])[..r.at] == calls[..r.at];
    }
  }

  lemma MidGrows(c: Curator, policy: Policy, calls: seq<Call>, e: Call)
    requires Mid(c, policy, calls, calls + [e])
    ensures Inv(c, policy, calls + [e])
  {
    FailuresGrow(c.failures, policy, calls, e);
    ReceiptsGrow(c.receipts, policy, calls, e);
  }

  // ---- Every call keeps the invariant ----

  lemma {:induction false} FilterDistinctCalls(rows: Rows, cutoff: int)
    requires DistinctCalls(rows)
    ensures DistinctCalls(Filter(rows, InWindow(cutoff)))
  {
    if rows != [] {
      var t := rows[1..];
      var kept := Filter(t, InWindow(cutoff));
      FilterDistinctCalls(t, cutoff);
      forall k | 0 <= k < |kept| ensures kept[k].callId != rows[0].callId {
        assert kept[k] in t;
        var j :| 0 <= j < |t| && t[j] == kept[k];
        assert rows[j + 1] == kept[k];
      }
    }
  }

  lemma PruneRows(rows: Rows, policy: Policy, cutoff: int)
    requires GoodRows(rows, policy) && LastSince(rows, cutoff)
    ensures GoodRows(Filter(rows, InWindow(cutoff)), policy)
    ensures forall r | r in Filter(rows, InWindow(cutoff)) :: r.time >= cutoff
  {
    assert rows[|rows| - 1] in Filter(rows, InWindow(cutoff));
    FilterDistinctCalls(rows, cutoff);
  }

  ghost predicate AllSince(rows: Rows, cutoff: int) {
    forall r | r in rows :: r.time >= cutoff
  }

  ghost predicate AllRecent(t: seq<(Key, Rows)>, cutoff: int) {
    forall f | f in t :: AllSince(f.1, cutoff)
  }

  /** Pruning leaves non-empty lists whose failures all lie in the window. */
  lemma {:induction false} PruneExact(t: seq<(Key, Rows)>, policy: Policy, cutoff: int, calls: seq<Call>)
    requires FailuresFine(t, policy, calls)
    ensures var p := PruneFailures(t, cutoff);
            && FailuresFine(p, policy, calls) && |p| <= |t|
            && AllRecent(p, cutoff)
            && (forall f | f in p :: exists g :: g in t && g.0 == f.0)
  {
    if t != [] {
      var first, rest := t[0], t[1..];
      var p := PruneFailures(rest, cutoff);
      assert t == [first] + rest && first in t;
      KeyedCons(first, rest);
      PruneExact(rest, policy, cutoff, calls);
      if LastSince(first.1, cutoff) {
        PruneRows(first.1, policy, cutoff);
        var head := (first.0, Filter(first.1, InWindow(cutoff)));
        forall f | f in p ensures f.0 != head.0 {
          var g :| g in rest && g.0 == f.0;
        }
        KeyedCons(head, p);
        assert PruneFailures(t, cutoff) == [head] + p;
        forall f | f in [head] + p ensures exists g :: g in t && g.0 == f.0 {
          MemberCons(head, p, f);
          if f == head { assert first in t && first.0 == f.0; }
        }
      } else {
        assert PruneFailures(t, cutoff) == [] + p == p;
      }
    }
  }

  lemma PruneKeepsInv(c: Curator, policy: Policy, cutoff: int, calls: seq<Call>)
    requires Inv(c, policy, calls)
    ensures Inv(Prune(c, cutoff), policy, calls)
    ensures AllRecent(Prune(c, cutoff).failures, cutoff)
  {
    PruneExact(c.failures, policy, cutoff, calls);
    PruneFewer(c.failures, cutoff);
    KeepKeyed(c.repairs, StampSince(cutoff));
    forall f | f in Prune(c, cutoff).repairs ensures Edited(calls, f.0.0, f.0.1, f.1) {
      KeepMember(c.repairs, StampSince(cutoff), f);
    }
    KeepKeyed(c.verifications, VerifiedSince(cutoff));
    forall v | v in Prune(c, cutoff).verifications ensures Backed(v, c.receipts) {
      KeepMember(c.verifications, VerifiedSince(cutoff), v);
    }
    Fewer(Used(Prune(c, cutoff)), Used(c), calls);
  }

  lemma RepairKeepsFine(c: Curator, calls: seq<Call>, e: Call)
    requires RepairsFine(c.repairs, calls) && e.callId != ""
    ensures RepairsFine(NoteRepair(c, e).repairs, calls + [e])
  {
    RepairsGrow(c.repairs, calls, e);
    if e.success && e.subject.name in EDITS && e.path.Some? {
      var key := (e.scope, e.path.value);
      var p := Put(c.repairs, key, e.now);
      PutKeyed(c.repairs, key, e.now);
      NewestKeyed(p, BOUND);
      forall f | f in Newest(p, BOUND) ensures Edited(calls + [e], f.0.0, f.0.1, f.1) {
        assert f in p;
        PutMember(c.repairs, key, e.now, f);
        assert e in calls + [e];
      }
    }
  }

  lemma StoreKeepsGood(t: seq<(Key, Rows)>, policy: Policy, key: Key, rows: Rows, calls: seq<Call>)
    requires FailuresFine(t, policy, calls) && GoodRows(rows, policy) && AllRecorded(calls, key, rows)
    ensures FailuresFine(Newest(Put(t, key, rows), BOUND), policy, calls)
  {
    var p := Put(t, key, rows);
    PutKeyed(t, key, rows);
    NewestKeyed(p, BOUND);
    forall f | f in Newest(p, BOUND) ensures GoodRows(f.1, policy) && AllRecorded(calls, f.0, f.1) {
      assert f in p;
      PutMember(t, key, rows, f);
    }
  }

  lemma AppendKeepsGood(rows: Rows, row: Row, policy: Policy)
    requires policy.repeat >= 1 && !HasCall(rows, row.callId) && (rows == [] || GoodRows(rows, policy))
    ensures GoodRows(Newest(rows + [row], policy.repeat), policy)
  {
  }

  lemma StoredFewer(stored: multiset<Row>, before: multiset<Row>, held: multiset<Row>, rows: multiset<Row>, row: multiset<Row>)
    requires stored + before == held + rows && rows <= before + row
    ensures stored <= held + row
  {
    forall r ensures stored[r] <= (held + row)[r] {
      assert (stored + before)[r] == (held + rows)[r];
      assert rows[r] <= (before + row)[r];
    }
  }

  /** Storing the shortened list of a key adds at most the new failure to what the table holds. */
  lemma StoringAdds(t: seq<(Key, Rows)>, key: Key, rows: Rows, row: multiset<Row>)
    requires multiset(rows) <= RowsAt(t, key) + row
    ensures Held(Newest(Put(t, key, rows), BOUND)) <= Held(t) + row
  {
    PutRows(t, key, rows);
    StoredFewer(Held(Put(t, key, rows)), RowsAt(t, key), Held(t), multiset(rows), row);
    NewestRows(Put(t, key, rows), BOUND);
  }

  lemma ReplaceKeepsMid(c: Curator, policy: Policy, t: seq<(Key, Rows)>, calls: seq<Call>, edits: seq<Call>)
    requires Mid(c, policy, calls, edits) && FailuresFine(t, policy, calls)
    requires Held(t) <= Held(c.failures)
    ensures Mid(c.(failures := t), policy, calls, edits)
  {
    Fewer(Held(t) + Spent(c.receipts), Used(c), calls);
  }

  lemma RestoreKeepsInv(c: Curator, policy: Policy, key: Key, rows: Rows, calls: seq<Call>, e: Call)
    requires Mid(c, policy, calls, calls + [e]) && rows == RowsFor(c, key) && rows != []
    ensures Inv(c.(failures := Newest(Put(c.failures, key, rows), BOUND)), policy, calls + [e])
  {
    var t := Newest(Put(c.failures, key, rows), BOUND);
    FindIn(c.failures, key);
    StoreKeepsGood(c.failures, policy, key, rows, calls);
    StoringAdds(c.failures, key, rows, multiset{});
    ReplaceKeepsMid(c, policy, t, calls, calls + [e]);
    MidGrows(c.(failures := t), policy, calls, e);
  }

  lemma LongerRows(c: Curator, policy: Policy, key: Key, rows: Rows, calls: seq<Call>, e: Call)
    requires Mid(c, policy, calls, calls + [e]) && policy.repeat >= 1 && rows == RowsFor(c, key)
    requires Counts(e) && key == Key(e.scope, e.subject, e.fingerprint) && !HasCall(rows, e.callId)
    ensures var longer := Newest(rows + [RowOf(e, |calls|)], policy.repeat);
            GoodRows(longer, policy) && AllRecorded(calls + [e], key, longer)
  {
    var row := RowOf(e, |calls|);
    FindIn(c.failures, key);
    AppendKeepsGood(rows, row, policy);
    assert AllRecorded(calls, key, rows);
    RecordedGrows(calls, e, key, rows);
    forall r | r in rows + [row] ensures Recorded(calls + [e], key, r) {
      assert r in rows || r == row;
      assert (calls + [e])[|calls|] == e;
    }
  }

  lemma AppendKeepsInv(c: Curator, policy: Policy, key: Key, rows: Rows, calls: seq<Call>, e: Call)
    requires Mid(c, policy, calls, calls + [e]) && policy.repeat >= 1 && rows == RowsFor(c, key)
    requires Counts(e) && key == Key(e.scope, e.subject, e.fingerprint) && !HasCall(rows, e.callId)
    ensures Inv(c.(failures := Newest(Put(c.failures, key, Newest(rows + [RowOf(e, |calls|)], policy.repeat)), BOUND)),
                policy, calls + [e])
  {
    var row := RowOf(e, |calls|);
    var longer := Newest(rows + [row], policy.repeat);
    var t := Newest(Put(c.failures, key, longer), BOUND);
    LongerRows(c, policy, key, rows, calls, e);
    FailuresGrow(c.failures, policy, calls, e);
    StoreKeepsGood(c.failures, policy, key, longer, calls + [e]);
    ReceiptsGrow(c.receipts, policy, calls, e);
    NewestFewer(rows + [row], policy.repeat);
    assert multiset(rows + [row]) == multiset(rows) + multiset{row};
    StoringAdds(c.failures, key, longer, multiset{row});
    OneMore(Held(t) + Spent(c.receipts), Used(c), calls, e);
  }

  lemma RecordKeepsInv(c: Curator, policy: Policy, calls: seq<Call>, e: Call)
    requires Mid(c, policy, calls, calls + [e]) && policy.repeat >= 1
    requires e.operation.Some? && (e.fingerprint != "" ==> Counts(e))
    ensures Inv(RecordFailure(c, policy, e, |calls|), policy, calls + [e])
  {
    if e.fingerprint == "" {
      MidGrows(c, policy, calls, e);
    } else {
      var key := Key(e.scope, e.subject, e.fingerprint);
      var rows := RowsFor(c, key);
      if HasCall(rows, e.callId) {
        RestoreKeepsInv(c, policy, key, rows, calls, e);
      } else {
        AppendKeepsInv(c, policy, key, rows, calls, e);
      }
    }
  }

  /** What counts as repaired is an edit of the trace. */
  lemma RepairWasEdited(repairs: seq<((string, string), int)>, scope: string, anchors: seq<string>, cutoff: int, time: int, edits: seq<Call>)
    requires RepairsFine(repairs, edits) && cutoff <= time && RepairedSince(repairs, scope, anchors, cutoff, time)
    ensures exists path, t :: path in anchors && t > time && Edited(edits, scope, path, t)
  {
    var k :| 0 <= k < |anchors| &&
      (var stamp := Find(repairs, (scope, anchors[k])); (if stamp.Some? then stamp.value else cutoff) > time);
    var t := Find(repairs, (scope, anchors[k])).value;
    FindIn(repairs, (scope, anchors[k]));
    assert anchors[k] in anchors && Edited(edits, scope, anchors[k], t);
  }

  lemma EligibleIsEarned(repairs: seq<((string, string), int)>, policy: Policy, cutoff: int, e: Call, key: Key, rows: Rows, calls: seq<Call>)
    requires e.operation.Some? && e.success && cutoff == e.now - policy.window
    requires Eligible(repairs, policy, cutoff, e, key, rows) && GoodRows(rows, policy) && AllSince(rows, cutoff)
    requires AllRecorded(calls, key, rows) && RepairsFine(repairs, calls + [e])
    ensures GoodReceipt(Receipt(e, |calls|, key, rows), policy, calls + [e])
  {
    var last := rows[|rows| - 1];
    assert last in rows;
    if last.digest == e.digest {
      RepairWasEdited(repairs, e.scope, e.operation.value.anchors, cutoff, last.time, calls + [e]);
    }
    forall k | 0 <= k < |rows| ensures rows[k].time >= cutoff { assert rows[k] in rows; }
    assert (calls + [e])[..|calls|] == calls;
  }

  lemma RemovingKeepsFine(t: seq<(Key, Rows)>, policy: Policy, f: (Key, Rows), calls: seq<Call>)
    requires FailuresFine(t, policy, calls) && f in t
    ensures FailuresFine(Remove(t, f.0), policy, calls) && Held(Remove(t, f.0)) + multiset(f.1) == Held(t)
  {
    FoundIs(t, f);
    RemoveRows(t, f.0);
    RemoveKeyed(t, f.0);
    forall g | g in Remove(t, f.0) ensures GoodRows(g.1, policy) && AllRecorded(calls, g.0, g.1) { RemoveMember(t, f.0, g); }
  }

  lemma IssueKeepsReceipts(receipts: seq<Receipt>, policy: Policy, r: Receipt, calls: seq<Call>, e: Call)
    requires ReceiptsFine(receipts, policy, calls) && GoodReceipt(r, policy, calls + [e])
    ensures ReceiptsFine(receipts + [r], policy, calls + [e])
  {
    ReceiptsGrow(receipts, policy, calls, e);
  }

  /** The failures a receipt rests on leave the table. */
  lemma IssueMovesRows(c: Curator, t: seq<(Key, Rows)>, r: Receipt, calls: seq<Call>, e: Call)
    requires Accounted(Used(c), calls) && Held(t) + multiset(r.rows) == Held(c.failures)
    ensures Accounted(Held(t) + Spent(c.receipts + [r]), calls + [e])
  {
    assert (c.receipts + [r])[..|c.receipts|] == c.receipts;
    assert Held(t) + Spent(c.receipts + [r]) == Used(c);
  }

  lemma VerifyKeepsInv(c: Curator, policy: Policy, cutoff: int, calls: seq<Call>, e: Call)
    requires Mid(c, policy, calls, calls + [e]) && policy.repeat >= 1
    requires e.operation.Some? && e.success && cutoff == e.now - policy.window && AllRecent(c.failures, cutoff)
    ensures Inv(Verify(c, policy, cutoff, e, |calls|).0, policy, calls + [e])
  {
    var eligible := Candidates(c.repairs, policy, cutoff, e, c.failures);
    if eligible == [] {
      MidGrows(c, policy, calls, e);
    } else {
      var f := eligible[Latest(eligible)];
      var r := Receipt(e, |calls|, f.0, f.1);
      assert f in eligible && f in c.failures;
      EligibleIsEarned(c.repairs, policy, cutoff, e, f.0, f.1, calls);
      IssueKeepsReceipts(c.receipts, policy, r, calls, e);
      RemovingKeepsFine(c.failures, policy, f, calls);
      FailuresGrow(Remove(c.failures, f.0), policy, calls, e);
      IssueMovesRows(c, Remove(c.failures, f.0), r, calls, e);
      ReceiptKeepsBacked(c, e, |calls|, f.0, f.1);
    }
  }

  lemma {:induction false} FoundIs(t: seq<(Key, Rows)>, f: (Key, Rows))
    requires Keyed(t) && f in t
    ensures Find(t, f.0) == Some(f.1)
  {
    if t[0].0 == f.0 {
      var j :| 0 <= j < |t| && t[j] == f;
      assert j == 0;
    } else {
      FoundIs(t[1..], f);
    }
  }

  lemma ReceiptKeepsBacked(c: Curator, e: Call, at: nat, key: Key, rows: Rows)
    requires VerificationsFine(c.verifications, c.receipts)
    ensures var v := Verification(e.now, key.fingerprint, [e.subject] + e.skills, e.callId, e.digest);
            VerificationsFine(Newest(Put(c.verifications, |c.receipts|, v), BOUND), c.receipts + [Receipt(e, at, key, rows)])
  {
    var v := Verification(e.now, key.fingerprint, [e.subject] + e.skills, e.callId, e.digest);
    var p := Put(c.verifications, |c.receipts|, v);
    PutKeyed(c.verifications, |c.receipts|, v);
    NewestKeyed(p, BOUND);
    forall w | w in Newest(p, BOUND) ensures Backed(w, c.receipts + [Receipt(e, at, key, rows)]) {
      assert w in p;
      PutMember(c.verifications, |c.receipts|, v, w);
    }
  }

  lemma JudgeKeepsInv(c: Curator, policy: Policy, cutoff: int, calls: seq<Call>, e: Call)
    requires Mid(c, policy, calls, calls + [e]) && policy.repeat >= 1 && e.callId != ""
    requires cutoff == e.now - policy.window && AllRecent(c.failures, cutoff)
    ensures Inv(Judge(c, policy, cutoff, e, |calls|).0, policy, calls + [e])
  {
    if "memory_" <= e.subject.name || e.forbidden || e.operation.None? {
      MidGrows(c, policy, calls, e);
    } else if e.success {
      VerifyKeepsInv(c, policy, cutoff, calls, e);
    } else {
      RecordKeepsInv(c, policy, calls, e);
    }
  }

  lemma PrunedKeepsInv(p: Curator, policy: Policy, cutoff: int, calls: seq<Call>, e: Call)
    requires Inv(p, policy, calls) && policy.repeat >= 1 && e.callId != ""
    requires cutoff == e.now - policy.window && AllRecent(p.failures, cutoff)
    ensures Inv(Judge(NoteRepair(p, e), policy, cutoff, e, |calls|).0, policy, calls + [e])
  {
    RepairKeepsFine(p, calls, e);
    JudgeKeepsInv(NoteRepair(p, e), policy, cutoff, calls, e);
  }

  lemma UnnamedKeepsInv(p: Curator, policy: Policy, calls: seq<Call>, e: Call)
    requires Inv(p, policy, calls)
    ensures Inv(p, policy, calls + [e])
  {
    RepairsGrow(p.repairs, calls, e);
    MidGrows(p, policy, calls, e);
  }

  lemma ObserveCounts(c: Curator, policy: Policy, e: Call)
    ensures Observe(c, policy, e).0.seen == c.seen + 1
    ensures Observe(c, policy, e).0 == var p, cutoff := Prune(c, e.now - policy.window), e.now - policy.window;
                                       if e.callId == "" then p else Judge(NoteRepair(p, e), policy, cutoff, e, c.seen).0
  {
  }

  lemma ObserveKeepsInv(c: Curator, policy: Policy, calls: seq<Call>, e: Call)
    requires Inv(c, policy, calls) && policy.repeat >= 1 && c.seen == |calls|
    ensures Inv(Observe(c, policy, e).0, policy, calls + [e])
  {
    var cutoff := e.now - policy.window;
    ObserveCounts(c, policy, e);
    PruneKeepsInv(c, policy, cutoff, calls);
    if e.callId == "" {
      UnnamedKeepsInv(Prune(c, cutoff), policy, calls, e);
    } else {
      PrunedKeepsInv(Prune(c, cutoff), policy, cutoff, calls, e);
    }
  }

  /** The accounting is kept by every further call of a trace. */
  lemma {:induction false} RunKeepsInv(c: Curator, policy: Policy, done: seq<Call>, calls: seq<Call>) returns (end: Curator)
    requires Inv(c, policy, done) && policy.repeat >= 1 && c.seen == |done|
    ensures end == Run(c, policy, calls)
    ensures Inv(end, policy, done + calls)
    decreases |calls|
  {
    if calls == [] {
      assert done + calls == done;
      end := c;
    } else {
      var next := Observe(c, policy, calls[0]).0;
      ObserveCounts(c, policy, calls[0]);
      ObserveKeepsInv(c, policy, done, calls[0]);
      assert done + [calls[0]] + calls[1..] == done + calls;
      end := RunKeepsInv(next, policy, done + [calls[0]], calls[1..]);
    }
  }

  /** It holds after every trace. */
  lemma TraceKeepsInv(policy: Policy, calls: seq<Call>)
    requires policy.repeat >= 1
    ensures Inv(Run(Initial(), policy, calls), policy, calls)
  {
    var end := RunKeepsInv(Initial(), policy, [], calls);
    assert [] + calls == calls;
  }

  // ---- What holds after any trace ----

  lemma {:induction false} SpentCount(receipts: seq<Receipt>, policy: Policy, calls: seq<Call>)
    requires ReceiptsFine(receipts, policy, calls)
    ensures |Spent(receipts)| == |receipts| * policy.repeat
    decreases |receipts|
  {
    if receipts != [] {
      var n := |receipts| - 1;
      SpentCount(receipts[..n], policy, calls);
      assert receipts[n] in receipts;
      assert |Spent(receipts)| == n * policy.repeat + policy.repeat;
      OneMoreTime(n, policy.repeat);
    }
  }

  lemma OneMoreTime(n: nat, k: nat)
    ensures n * k + k == (n + 1) * k
  {
  }

  ghost predicate BackedByCall(r: Row, calls: seq<Call>) {
    r.serial < |calls| && Counts(calls[r.serial]) && r == RowOf(calls[r.serial], r.serial)
  }

  /** Failures that are all different are no more than the failing calls. */
  lemma {:induction false} NoMoreThanFailures(u: multiset<Row>, calls: seq<Call>)
    requires forall r | r in u :: u[r] == 1 && BackedByCall(r, calls)
    ensures |u| <= Failures(calls)
    decreases |calls|
  {
    if calls == [] {
      assert forall r :: r !in u;
      assert u == multiset{};
    } else {
      var n := |calls| - 1;
      var v := if Counts(calls[n]) then u - multiset{RowOf(calls[n], n)} else u;
      forall r | r in v ensures v[r] == 1 && BackedByCall(r, calls[..n]) {
        assert r in u;
      }
      NoMoreThanFailures(v, calls[..n]);
    }
  }

  lemma {:induction false} SpentIsBacked(receipts: seq<Receipt>, policy: Policy, calls: seq<Call>)
    requires ReceiptsFine(receipts, policy, calls)
    ensures forall r | r in Spent(receipts) :: BackedByCall(r, calls)
    decreases |receipts|
  {
    if receipts != [] {
      var last := receipts[|receipts| - 1];
      SpentIsBacked(receipts[..|receipts| - 1], policy, calls);
      assert last in receipts;
      forall r | r in last.rows ensures BackedByCall(r, calls) {
        assert Recorded(calls[..last.at], last.key, r);
      }
    }
  }

  /** Over any trace, the failures kept are failing calls of it, every list of them is non-empty, the three tables stay
      within their bound, and the receipts issued need `repeat` times as many failing calls. */
  lemma ReceiptsNeedFailures(policy: Policy, calls: seq<Call>)
    requires policy.repeat >= 1
    ensures var c := Run(Initial(), policy, calls);
            && (forall f | f in c.failures :: f.1 != [] && AllRecorded(calls, f.0, f.1))
            && |c.failures| <= BOUND && |c.repairs| <= BOUND && |c.verifications| <= BOUND
            && ReceiptsFine(c.receipts, policy, calls)
            && |c.receipts| * policy.repeat <= Failures(calls)
  {
    var c := Run(Initial(), policy, calls);
    TraceKeepsInv(policy, calls);
    SpentCount(c.receipts, policy, calls);
    SpentIsBacked(c.receipts, policy, calls);
    SpentOnce(c, calls);
    NoMoreThanFailures(Spent(c.receipts), calls);
  }

  lemma SpentOnce(c: Curator, calls: seq<Call>)
    requires Accounted(Used(c), calls)
    ensures forall r | r in Spent(c.receipts) :: Spent(c.receipts)[r] == 1
  {
    forall r | r in Spent(c.receipts) ensures Spent(c.receipts)[r] == 1 {
      assert r in Used(c);
    }
  }

  lemma {:induction false} SpentHas(receipts: seq<Receipt>, i: nat, r: Row)
    requires i < |receipts| && r in receipts[i].rows
    ensures Spent(receipts)[r] >= 1
    decreases |receipts|
  {
    var before := receipts[..|receipts| - 1];
    if i < |before| { SpentHas(before, i, r); }
  }

  lemma {:induction false} SpentTwice(receipts: seq<Receipt>, i: nat, j: nat, r: Row)
    requires i < j < |receipts| && r in receipts[i].rows && r in receipts[j].rows
    ensures Spent(receipts)[r] >= 2
    decreases |receipts|
  {
    var before := receipts[..|receipts| - 1];
    if j < |before| {
      SpentTwice(before, i, j, r);
    } else {
      SpentHas(before, i, r);
    }
  }

  /** Over any trace, every receipt rests on `repeat` failing calls of its own; no call backs two receipts. */
  lemma NoFailureBacksTwoReceipts(policy: Policy, calls: seq<Call>, i: nat, j: nat, a: Row, b: Row)
    requires policy.repeat >= 1
    requires i < j < |Run(Initial(), policy, calls).receipts|
    requires a in Run(Initial(), policy, calls).receipts[i].rows && b in Run(Initial(), policy, calls).receipts[j].rows
    ensures a.serial < |calls| && b.serial < |calls| && a.serial != b.serial
    ensures Recorded(calls, Run(Initial(), policy, calls).receipts[i].key, a)
    ensures Recorded(calls, Run(Initial(), policy, calls).receipts[j].key, b)
  {
    var c := Run(Initial(), policy, calls);
    TraceKeepsInv(policy, calls);
    assert c.receipts[i] in c.receipts && c.receipts[j] in c.receipts;
    SpentHas(c.receipts, i, a);
    SpentHas(c.receipts, j, b);
    assert a in Used(c) && b in Used(c);
    if a.serial == b.serial {
      assert a == b;
      SpentTwice(c.receipts, i, j, a);
    }
  }

  /** A successful call earns a receipt exactly when some failing operation is eligible, and then for the one that
      failed last. */
  lemma ReceiptIffEligible(c: Curator, policy: Policy, cutoff: int, e: Call, at: nat)
    requires e.operation.Some?
    ensures Verify(c, policy, cutoff, e, at).1.Some? <==>
            exists f :: f in c.failures && Eligible(c.repairs, policy, cutoff, e, f.0, f.1)
    ensures Verify(c, policy, cutoff, e, at).1.Some? ==>
            var receipts := Verify(c, policy, cutoff, e, at).0.receipts;
            var r := receipts[|receipts| - 1];
            && (r.key, r.rows) in c.failures && Eligible(c.repairs, policy, cutoff, e, r.key, r.rows)
            && forall f | f in c.failures && Eligible(c.repairs, policy, cutoff, e, f.0, f.1) :: LastTime(f.1) <= LastTime(r.rows)
  {
    var eligible := Candidates(c.repairs, policy, cutoff, e, c.failures);
    if eligible != [] {
      var r := eligible[Latest(eligible)];
      assert r in eligible;
      forall f | f in c.failures && Eligible(c.repairs, policy, cutoff, e, f.0, f.1) ensures LastTime(f.1) <= LastTime(r.1) {
        assert f in eligible;
        var k :| 0 <= k < |eligible| && eligible[k] == f;
      }
    }
  }

  // ---- Looking a receipt up ----

  lemma {:induction false} FirstSpeakerExact(subjects: seq<Subject>, wanted: Subject)
    ensures FirstSpeaker(subjects, wanted).Some? <==> exists s :: s in subjects && Speaks(s, wanted)
    ensures FirstSpeaker(subjects, wanted).Some? ==>
              FirstSpeaker(subjects, wanted).value in subjects && Speaks(FirstSpeaker(subjects, wanted).value, wanted)
  {
    if subjects != [] && !Speaks(subjects[0], wanted) { FirstSpeakerExact(subjects[1..], wanted); }
  }

  /** An accepted receipt was issued for this very failure, inside the window, to a call of the trace by a matching
      subject, and rests on `repeat` earlier failing calls of that operation with this fingerprint. */
  lemma AcceptedReceiptIsEarned(policy: Policy, calls: seq<Call>, now: int, receipt: nat, subject: Subject, fingerprint: string)
    requires policy.repeat >= 1
    requires VerificationFor(Run(Initial(), policy, calls), policy, now, receipt, subject, fingerprint).Accepted?
    ensures var c := Run(Initial(), policy, calls);
            && receipt < |c.receipts| && GoodReceipt(c.receipts[receipt], policy, calls)
            && c.receipts[receipt].key.fingerprint == fingerprint
            && (forall r | r in c.receipts[receipt].rows :: r.serial < |calls| && calls[r.serial].fingerprint == fingerprint)
            && now - c.receipts[receipt].call.now <= policy.window
            && exists s :: s in [c.receipts[receipt].call.subject] + c.receipts[receipt].call.skills && Speaks(s, subject)
  {
    var c := Run(Initial(), policy, calls);
    TraceKeepsInv(policy, calls);
    FindIn(c.verifications, receipt);
    var v := Find(c.verifications, receipt).value;
    assert Backed((receipt, v), c.receipts);
    FirstSpeakerExact(v.subjects, subject);
    assert c.receipts[receipt] in c.receipts;
  }
}
