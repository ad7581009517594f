/** Evidence receipts: repeated failures inside a time window, followed by a changed call that succeeds. */
module Correction {
  import opened Ordering
  import opened Tables
  import opened Optional

  datatype Subject = Subject(kind: string, name: string, version: string)

  /** What identifies a real operation, with the files it is anchored to. */
  datatype Operation = Operation(key: string, anchors: seq<string>)

  datatype Key = Key(scope: string, subject: Subject, fingerprint: string)

  /** One stored failure; `serial` says which of the calls observed so far it was, which the program does not keep. */
  datatype Row = Row(time: int, callId: string, digest: string, operation: Operation, serial: nat)

  type Rows = seq<Row>

  /** A finished tool call. `path` is the normalised file an edit names, `forbidden` says that its text must not be
      stored or looks like a one-off repair of the environment, and `operation` is absent when it has no identity. */
  datatype Call = Call(
    now: int, scope: string, subject: Subject, callId: string, success: bool, path: Option<string>,
    forbidden: bool, operation: Option<Operation>, digest: string, fingerprint: string, skills: seq<Subject>)

  datatype Verification = Verification(time: int, fingerprint: string, subjects: seq<Subject>, callId: string, digest: string)

  /** A receipt as it was issued: the call that earned it, which one that was, and the failures it rests on; only the
      proofs remember these. */
  datatype Receipt = Receipt(call: Call, at: nat, key: Key, rows: Rows)

  datatype Curator = Curator(
    failures: seq<(Key, Rows)>,
    repairs: seq<((string, string), int)>,
    verifications: seq<(int, Verification)>,
    seen: nat,                     // calls observed so far
    receipts: seq<Receipt>)

  /** The window of time that counts, and how many failures a receipt needs. */
  datatype Policy = Policy(window: int, repeat: nat)

  const BOUND: nat := 128
  const EDITS := {"edit_file", "write_file", "append_file"}

  // ---- Observing a call ----

  function Initial(): Curator {
    Curator([], [], [], 0, [])
  }

  function InWindow(cutoff: int): Row -> bool {
    (r: Row) => r.time >= cutoff
  }

  predicate LastSince(rows: Rows, cutoff: int) {
    rows != [] && rows[|rows| - 1].time >= cutoff
  }

  function PruneFailures(t: seq<(Key, Rows)>, cutoff: int): seq<(Key, Rows)> {
    if t == [] then []
    else
      (if LastSince(t[0].1, cutoff) then [(t[0].0, Filter(t[0].1, InWindow(cutoff)))] else []) + PruneFailures(t[1..], cutoff)
  }

  function StampSince(cutoff: int): int -> bool {
    (stamp: int) => stamp >= cutoff
  }

  function VerifiedSince(cutoff: int): Verification -> bool {
    (v: Verification) => v.time >= cutoff
  }

  /** One more call is seen, and what lies before the window is forgotten. */
  function Prune(c: Curator, cutoff: int): Curator {
    Curator(PruneFailures(c.failures, cutoff), Keep(c.repairs, StampSince(cutoff)), Keep(c.verifications, VerifiedSince(cutoff)),
            c.seen + 1, c.receipts)
  }

  function NoteRepair(c: Curator, e: Call): Curator {
    if e.success && e.subject.name in EDITS && e.path.Some? then
      c.(repairs := Newest(Put(c.repairs, (e.scope, e.path.value), e.now), BOUND))
    else c
  }

  predicate HasCall(rows: Rows, callId: string) {
    exists k :: 0 <= k < |rows| && rows[k].callId == callId
  }

  function RowsFor(c: Curator, key: Key): Rows {
    if Find(c.failures, key).Some? then Find(c.failures, key).value else []
  }

  function RowOf(e: Call, serial: nat): Row
    requires e.operation.Some?
  {
    Row(e.now, e.callId, e.digest, e.operation.value, serial)
  }

  function RecordFailure(c: Curator, policy: Policy, e: Call, serial: nat): Curator
    requires e.operation.Some?
  {
    if e.fingerprint == "" then c
    else
      var key := Key(e.scope, e.subject, e.fingerprint);
      var rows := RowsFor(c, key);
      if HasCall(rows, e.callId) then c.(failures := Newest(Put(c.failures, key, rows), BOUND))
      else c.(failures := Newest(Put(c.failures, key, Newest(rows + [RowOf(e, serial)], policy.repeat)), BOUND))
  }

  /** Some anchor file was edited after this moment. */
  predicate RepairedSince(repairs: seq<((string, string), int)>, scope: string, anchors: seq<string>, cutoff: int, time: int) {
    exists k :: 0 <= k < |anchors| &&
      (var stamp := Find(repairs, (scope, anchors[k])); (if stamp.Some? then stamp.value else cutoff) > time)
  }

  predicate Eligible(repairs: seq<((string, string), int)>, policy: Policy, cutoff: int, e: Call, key: Key, rows: Rows)
    requires e.operation.Some?
  {
    && key.scope == e.scope && key.subject == e.subject
    && |rows| >= policy.repeat
    && !HasCall(rows, e.callId)
    && (forall k | 0 <= k < |rows| :: rows[k].operation == e.operation.value)
    && rows != []
    && (rows[|rows| - 1].digest != e.digest
        || RepairedSince(repairs, e.scope, e.operation.value.anchors, cutoff, rows[|rows| - 1].time))
  }

  function Candidates(repairs: seq<((string, string), int)>, policy: Policy, cutoff: int, e: Call, t: seq<(Key, Rows)>): (r: seq<(Key, Rows)>)
    requires e.operation.Some?
    ensures forall f :: f in r <==> f in t && Eligible(repairs, policy, cutoff, e, f.0, f.1)
  {
    if t == [] then []
    else (if Eligible(repairs, policy, cutoff, e, t[0].0, t[0].1) then [t[0]] else []) + Candidates(repairs, policy, cutoff, e, t[1..])
  }

  function LastTime(rows: Rows): int {
    if rows == [] then 0 else rows[|rows| - 1].time
  }

  /** Where the first of the most recently failing candidates stands. */
  function Latest(t: seq<(Key, Rows)>): (k: nat)
    requires t != []
    ensures k < |t|
    ensures forall j | 0 <= j < |t| :: LastTime(t[j].1) <= LastTime(t[k].1)
    ensures forall j | 0 <= j < k :: LastTime(t[j].1) < LastTime(t[k].1)
  {
    if |t| == 1 then 0
    else
      var n := |t| - 1;
      var k := Latest(t[..n]);
      assert forall j | 0 <= j < n :: t[..n][j] == t[j];
      if LastTime(t[n].1) > LastTime(t[k].1) then n else k
  }

  function Verify(c: Curator, policy: Policy, cutoff: int, e: Call, at: nat): (Curator, Option<nat>)
    requires e.operation.Some?
  {
    var eligible := Candidates(c.repairs, policy, cutoff, e, c.failures);
    if eligible == [] then (c, None)
    else
      var (key, rows) := eligible[Latest(eligible)];
      var id := |c.receipts|;
      var v := Verification(e.now, key.fingerprint, [e.subject] + e.skills, e.callId, e.digest);
      (c.(failures := Remove(c.failures, key),
          verifications := Newest(Put(c.verifications, id, v), BOUND),
          receipts := c.receipts + [Receipt(e, at, key, rows)]),
       Some(id))
  }

  /** What the call itself says, once it is known to have an identity. */
  function Judge(c: Curator, policy: Policy, cutoff: int, e: Call, at: nat): (Curator, Option<nat>) {
    if "memory_" <= e.subject.name || e.forbidden || e.operation.None? then (c, None)
    else if !e.success then (RecordFailure(c, policy, e, at), None)
    else Verify(c, policy, cutoff, e, at)
  }

  /** `observe_result`; a receipt is numbered by the order of issue. */
  function Observe(c: Curator, policy: Policy, e: Call): (Curator, Option<nat>) {
    var cutoff := e.now - policy.window;
    var p := Prune(c, cutoff);
    if e.callId == "" then (p, None) else Judge(NoteRepair(p, e), policy, cutoff, e, c.seen)
  }

  function Run(c: Curator, policy: Policy, calls: seq<Call>): Curator
    decreases |calls|
  {
    if calls == [] then c else Run(Observe(c, policy, calls[0]).0, policy, calls[1..])
  }

  // ---- Looking a receipt up ----

  datatype Lookup =
    | Accepted(subject: Subject, evidence: Verification)
    | MissingOrExpired
    | OtherFailure
    | OtherSubject

  predicate Speaks(actual: Subject, wanted: Subject) {
    actual.kind == wanted.kind && actual.name == wanted.name && (wanted.version == "" || wanted.version == actual.version)
  }

  /** The first listed subject that answers for the wanted one. */
  function FirstSpeaker(subjects: seq<Subject>, wanted: Subject): Option<Subject> {
    if subjects == [] then None
    else if Speaks(subjects[0], wanted) then Some(subjects[0])
    else FirstSpeaker(subjects[1..], wanted)
  }

  function VerificationFor(c: Curator, policy: Policy, now: int, receipt: nat, subject: Subject, fingerprint: string): Lookup {
    var record := Find(c.verifications, receipt);
    if record.None? || now - record.value.time > policy.window then MissingOrExpired
    else if fingerprint != record.value.fingerprint then OtherFailure
    else
      var speaker := FirstSpeaker(record.value.subjects, subject);
      if speaker.Some? then Accepted(speaker.value, record.value) else OtherSubject
  }

  // ---- The class ----

  class CorrectionCurator {
    const policy: Policy
    var failures: seq<(Key, Rows)>
    var repairs: seq<((string, string), int)>
    var verifications: seq<(int, Verification)>
    var seen: nat
    var issued: nat
    ghost var receipts: seq<Receipt>

    ghost function View(): Curator
      reads this
    {
      Curator(failures, repairs, verifications, seen, receipts)
    }

    ghost predicate Valid()
      reads this
    {
      issued == |receipts|
    }

    constructor (policy: Policy)
      ensures Valid() && View() == Initial() && this.policy == policy
    {
      this.policy := policy;
      failures, repairs, verifications, seen, issued, receipts := [], [], [], 0, 0, [];
    }

    static method TrimOldest<T>(t: seq<T>) returns (r: seq<T>)
      ensures r == Newest(t, BOUND)
    {
      r := t;
      ghost var n := 0;
      while |r| > BOUND
        invariant n <= |t| && r == t[n..] && (n > 0 ==> |r| >= BOUND)
        decreases |r|
      {
        r, n := r[1..], n + 1;
      }
    }

    method ObserveResult(e: Call) returns (receipt: Option<nat>)
      requires Valid()
      modifies this
      ensures Valid() && (View(), receipt) == Observe(old(View()), policy, e)
    {
      var cutoff := e.now - policy.window;
      var at := seen;
      seen := seen + 1;
      failures := PruneFailures(failures, cutoff);
      verifications := Keep(verifications, VerifiedSince(cutoff));
      repairs := Keep(repairs, StampSince(cutoff));
      if e.callId == "" {
        return None;
      }
      if e.success && e.subject.name in EDITS && e.path.Some? {
        repairs := Put(repairs, (e.scope, e.path.value), e.now);
        repairs := TrimOldest(repairs);
      }
      if "memory_" <= e.subject.name || e.forbidden || e.operation.None? {
        return None;
      }
      if !e.success {
        FailureSeen(e, at);
        return None;
      }
      receipt := SuccessSeen(cutoff, e, at);
    }

    method FailureSeen(e: Call, serial: nat)
      requires Valid() && e.operation.Some?
      modifies this`failures
      ensures Valid() && View() == RecordFailure(old(View()), policy, e, serial)
    {
      if e.fingerprint == "" {
        return;
      }
      var key := Key(e.scope, e.subject, e.fingerprint);
      var stored := Find(failures, key);
      var rows := if stored.Some? then stored.value else [];
      if !HasCall(rows, e.callId) {
        rows := rows + [RowOf(e, serial)];
        rows := Newest(rows, policy.repeat);
      }
      failures := Put(failures, key, rows);
      failures := TrimOldest(failures);
    }

    method SuccessSeen(cutoff: int, e: Call, at: nat) returns (receipt: Option<nat>)
      requires Valid() && e.operation.Some?
      modifies this`failures, this`verifications, this`issued, this`receipts
      ensures Valid() && (View(), receipt) == Verify(old(View()), policy, cutoff, e, at)
    {
      var eligible := Candidates(repairs, policy, cutoff, e, failures);
      if eligible == [] {
        return None;
      }
      var (key, rows) := eligible[Latest(eligible)];
      receipt := Some(issued);
      var v := Verification(e.now, key.fingerprint, [e.subject] + e.skills, e.callId, e.digest);
      verifications := Put(verifications, issued, v);
      failures := Remove(failures, key);
      verifications := TrimOldest(verifications);
      issued, receipts := issued + 1, receipts + [Receipt(e, at, key, rows)];
    }

    method FindVerification(now: int, receipt: nat, subject: Subject, fingerprint: string) returns (r: Lookup)
      ensures r == VerificationFor(View(), policy, now, receipt, subject, fingerprint)
    {
      var record := Find(verifications, receipt);
      if record.None? || now - record.value.time > policy.window {
        return MissingOrExpired;
      }
      if fingerprint != record.value.fingerprint {
        return OtherFailure;
      }
      var subjects := record.value.subjects;
      for k := 0 to |subjects|
        invariant FirstSpeaker(subjects, subject) == FirstSpeaker(subjects[k..], subject)
      {
        assert subjects[k..][1..] == subjects[k + 1..];
        if Speaks(subjects[k], subject) {
          return Accepted(subjects[k], record.value);
        }
      }
      assert subjects[|subjects|..] == [];
      r := OtherSubject;
    }
  }
}
