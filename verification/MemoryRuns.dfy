/** What every run of the maintainer does to the corrections, while the rest of the program goes on using the memory. */
module MemoryRuns {
  import opened Ordering
  import opened Entries
  import opened Optional
  import opened Maintenance
  import opened MaintainerOutput
  import opened Compaction
  import opened Arbitration
  import opened Dedup
  import opened DedupLaws

  /** What does not change during a run. */
  datatype Env = Env(cfg: Config, clock: Clock, tokens: Tokenizer, threshold: real, space: char -> bool)

  /** The stores, and the ordinary entries that were read before the model was last asked. */
  datatype State = State(stores: Stores, snapshot: seq<Entry>)

  datatype Event =
    | DoDecay(now: int)
    | DoCleanup(now: int)
    | DoDedup(out: seq<Entry>)
    | DoRead
    | DoResolve(clusters: seq<seq<nat>>, replies: seq<Option<Json>>)
    | DoCompact(data: Option<Json>, maker: Maker)
    | DoAdd(e: Entry)             // the rest of the program stores an entry,
    | DoEdit(k: nat, e: Entry)    // or changes an ordinary one

  /** New entries get ids that nothing else has, and edits leave the id and the kind of an entry alone. */
  ghost predicate Enabled(st: State, a: Event, env: Env) {
    var active := st.stores.active;
    match a
    case DoDedup(out) => DedupTo(active, env.tokens, env.threshold, out)
    case DoResolve(clusters, replies) => ClustersFit(st.snapshot, clusters) && |replies| == |clusters|
    case DoCompact(_, maker) => forall k: nat :: maker.newId(k) !in IdsOf(Corrections(active))
    case DoAdd(e) => e.id !in IdsOf(active) + IdsOf(st.snapshot)
    case DoEdit(k, e) => k < |active| && !active[k].IsCorrection() && !e.IsCorrection() && e.id == active[k].id
    case _ => true
  }

  ghost function Step(st: State, a: Event, env: Env): State
    requires Enabled(st, a, env)
  {
    var s := st.stores;
    match a
    case DoDecay(now) => st.(stores := AfterDecay(s, env.cfg, env.clock, now))
    case DoCleanup(now) => st.(stores := AfterCleanup(s, env.cfg, env.clock, now))
    case DoDedup(out) => st.(stores := s.(active := out))
    case DoRead => st.(snapshot := Ordinary(s.active))
    case DoResolve(clusters, replies) => st.(stores := AfterResolution(s, st.snapshot, clusters, replies))
    case DoCompact(data, maker) => st.(stores := s.(active := AfterCompaction(s.active, st.snapshot, data, env.space, maker)))
    case DoAdd(e) => st.(stores := s.(active := s.active + [e]))
    case DoEdit(k, e) => st.(stores := s.(active := s.active[k := e]))
  }

  ghost predicate Trace(st: State, events: seq<Event>, env: Env, st': State)
    decreases |events|
  {
    if events == [] then st == st'
    else Enabled(st, events[0], env) && Trace(Step(st, events[0], env), events[1..], env, st')
  }

  /** No correction shares its id with an ordinary entry, stored or read. */
  ghost predicate Apart(active: seq<Entry>, snapshot: seq<Entry>) {
    IdsOf(Corrections(active)) !! IdsOf(Ordinary(active)) + IdsOf(snapshot)
  }

  /** The corrections that an event adds. */
  function Adds(a: Event): seq<Entry> {
    if a.DoAdd? && a.e.IsCorrection() then [a.e] else []
  }

  function Added(events: seq<Event>): seq<Entry> {
    if events == [] then [] else Adds(events[0]) + Added(events[1..])
  }

  // ---- Each event ----

  lemma FewerOrdinary(active: seq<Entry>, goes: Entry -> bool)
    ensures IdsOf(Ordinary(Reject(active, goes))) <= IdsOf(Ordinary(active))
  {
    forall e | e in Ordinary(Reject(active, goes)) ensures e.id in IdsOf(Ordinary(active)) {
      assert e in Ordinary(active);
    }
  }

  lemma DecayKeeps(s: Stores, snapshot: seq<Entry>, cfg: Config, clock: Clock, now: int)
    requires Apart(s.active, snapshot)
    ensures var active := AfterDecay(s, cfg, clock, now).active;
            Apart(active, snapshot) && Corrections(active) == Corrections(s.active)
  {
    var goes := e => Unused(e, cfg, clock, now);
    FilterAfterReject(s.active, goes, (e: Entry) => e.IsCorrection());
    FewerOrdinary(s.active, goes);
    assert AfterDecay(s, cfg, clock, now).active == Reject(s.active, goes);
  }

  lemma {:induction false} SurvivorsKeepIds(es: seq<Entry>, merged: map<nat, nat>, losers: seq<nat>, upTo: nat)
    requires upTo <= |es| && Enumerates(losers, merged) && MergesInto(es, merged)
    ensures forall e | e in Survivors(es, merged, losers, upTo) :: exists f :: f in es && f.id == e.id && f.entryType == e.entryType
  {
    if upTo > 0 {
      SurvivorsKeepIds(es, merged, losers, upTo - 1);
      if upTo - 1 !in merged { WinnerAggregates(es, merged, losers, upTo - 1); }
      assert es[upTo - 1] in es;
    }
  }

  lemma DedupKeeps(active: seq<Entry>, snapshot: seq<Entry>, tokens: Tokenizer, threshold: real, out: seq<Entry>)
    requires Apart(active, snapshot) && DedupTo(active, tokens, threshold, out)
    ensures Apart(out, snapshot) && Corrections(out) == Corrections(active)
  {
    DedupKeepsCorrections(active, tokens, threshold, out);
    var merged, losers :| DedupVia(active, tokens, threshold, merged, losers, out);
    SurvivorsKeepIds(active, merged, losers, |active|);
    forall e | e in Ordinary(out) ensures e.id in IdsOf(Ordinary(active)) {
      var f :| f in active && f.id == e.id && f.entryType == e.entryType;
      assert f in Ordinary(active);
    }
  }

  lemma ResolveKeeps(s: Stores, snapshot: seq<Entry>, clusters: seq<seq<nat>>, replies: seq<Option<Json>>)
    requires Apart(s.active, snapshot) && ClustersFit(snapshot, clusters) && |replies| == |clusters|
    ensures var active := AfterResolution(s, snapshot, clusters, replies).active;
            Apart(active, snapshot) && Corrections(active) == Corrections(s.active)
  {
    ResolutionKeepsCorrections(s, snapshot, clusters, replies);
    var losers := LosersOf(AcceptedGroups(snapshot, clusters, replies));
    FewerOrdinary(s.active, Loses(losers));
    var active := AfterResolution(s, snapshot, clusters, replies).active;
    assert active == Reject(s.active, Loses(losers)) || active == s.active;
  }

  lemma CompactKeeps(active: seq<Entry>, snapshot: seq<Entry>, data: Option<Json>, space: char -> bool, maker: Maker)
    requires Apart(active, snapshot) && forall k: nat :: maker.newId(k) !in IdsOf(Corrections(active))
    ensures var after := AfterCompaction(active, snapshot, data, space, maker);
            Apart(after, snapshot) && Corrections(after) == Corrections(active)
  {
    if data.Some? && ValidCompaction(data.value, IdsOf(snapshot), space) && SnapshotCurrent(snapshot, active) {
      var parsed := MergedOf(data.value.items, IdsOf(snapshot), space);
      AcceptedNamesSnapshot(data.value, snapshot, space);
      NamedSourcesExist(snapshot, active, parsed);
      RewritingKeeps(active, snapshot, parsed, maker);
    }
  }

  lemma RewritingKeeps(active: seq<Entry>, snapshot: seq<Entry>, parsed: seq<Merged>, maker: Maker)
    requires Apart(active, snapshot) && forall k: nat :: maker.newId(k) !in IdsOf(Corrections(active))
    requires ParsedAgainst(active, parsed)
    ensures var after := Rewritten(active, snapshot, parsed, maker);
            Apart(after, snapshot) && Corrections(after) == Corrections(active)
  {
    ConcurrentEditsSurvive(active, snapshot, parsed, maker);
    var after := Rewritten(active, snapshot, parsed, maker);
    forall e | e in Ordinary(after) ensures e.id !in IdsOf(Corrections(active)) {
      if e in Compacted(active, parsed, maker) {
        var k :| 0 <= k < |parsed| && Compacted(active, parsed, maker)[k] == e;
        CompactedAt(active, parsed, maker, |parsed|, k);
        assert e.id == maker.newId(k);
      } else {
        assert e in Ordinary(active);
      }
    }
  }

  lemma IdsSnoc(es: seq<Entry>, e: Entry)
    ensures IdsOf(es + [e]) == IdsOf(es) + {e.id}
  {
    assert (es + [e])[|es|] == e;
  }

  lemma AddedTo(active: seq<Entry>, e: Entry)
    ensures Corrections(active + [e]) == Corrections(active) + Adds(DoAdd(e))
    ensures Ordinary(active + [e]) == if e.IsCorrection() then Ordinary(active) else Ordinary(active) + [e]
  {
    FilterSnoc(active, e, (e: Entry) => e.IsCorrection());
    FilterSnoc(active, e, (e: Entry) => !e.IsCorrection());
  }

  lemma IdsAddedTo(active: seq<Entry>, e: Entry)
    ensures IdsOf(Corrections(active)) <= IdsOf(active) && IdsOf(Ordinary(active)) <= IdsOf(active)
    ensures IdsOf(Corrections(active + [e])) == IdsOf(Corrections(active)) + (if e.IsCorrection() then {e.id} else {})
    ensures IdsOf(Ordinary(active + [e])) == IdsOf(Ordinary(active)) + (if e.IsCorrection() then {} else {e.id})
  {
    AddedTo(active, e);
    IdsSnoc(Corrections(active), e);
    IdsSnoc(Ordinary(active), e);
  }

  lemma AddKeeps(active: seq<Entry>, snapshot: seq<Entry>, e: Entry)
    requires Apart(active, snapshot) && e.id !in IdsOf(active) + IdsOf(snapshot)
    ensures Apart(active + [e], snapshot) && Corrections(active + [e]) == Corrections(active) + Adds(DoAdd(e))
  {
    AddedTo(active, e);
    IdsAddedTo(active, e);
  }

  lemma EditKeeps(active: seq<Entry>, snapshot: seq<Entry>, k: nat, e: Entry)
    requires Apart(active, snapshot) && k < |active|
    requires !active[k].IsCorrection() && !e.IsCorrection() && e.id == active[k].id
    ensures Apart(active[k := e], snapshot) && Corrections(active[k := e]) == Corrections(active)
  {
    var was, a, b := active[k], active[..k], active[k + 1..];
    assert active == a + [was] + b && active[k := e] == a + [e] + b;
    CorrectionsConcat(a + [was], b);
    CorrectionsConcat(a + [e], b);
    CorrectionsConcat(a, [was]);
    CorrectionsConcat(a, [e]);
    FilterOne(was, (e: Entry) => e.IsCorrection());
    FilterOne(e, (e: Entry) => e.IsCorrection());
    assert was in Ordinary(active);
    forall f | f in Ordinary(active[k := e]) ensures f.id in IdsOf(Ordinary(active)) {
      assert f == e || f in Ordinary(active);
    }
  }

  lemma StepKeepsCorrections(st: State, a: Event, env: Env)
    requires Apart(st.stores.active, st.snapshot) && Enabled(st, a, env)
    ensures var st' := Step(st, a, env);
            && Apart(st'.stores.active, st'.snapshot)
            && Corrections(st'.stores.active) == Corrections(st.stores.active) + Adds(a)
  {
    var s, active, snapshot := st.stores, st.stores.active, st.snapshot;
    match a
    case DoDecay(now) => DecayKeeps(s, snapshot, env.cfg, env.clock, now);
    case DoCleanup(_) =>
    case DoDedup(out) => DedupKeeps(active, snapshot, env.tokens, env.threshold, out);
    case DoRead =>
    case DoResolve(clusters, replies) => ResolveKeeps(s, snapshot, clusters, replies);
    case DoCompact(data, maker) => CompactKeeps(active, snapshot, data, env.space, maker);
    case DoAdd(e) => AddKeeps(active, snapshot, e);
    case DoEdit(k, e) => EditKeeps(active, snapshot, k, e);
  }

  /** No correction ever leaves the active store: after any run they are the ones that were there, followed by those
      added since, whatever the model replied. */
  lemma {:induction false} RunKeepsCorrections(st: State, events: seq<Event>, env: Env, st': State)
    requires Apart(st.stores.active, st.snapshot) && Trace(st, events, env, st')
    ensures Corrections(st'.stores.active) == Corrections(st.stores.active) + Added(events)
    decreases |events|
  {
    if events != [] {
      var next := Step(st, events[0], env);
      StepKeepsCorrections(st, events[0], env);
      RunKeepsCorrections(next, events[1..], env, st');
      Appended(Corrections(st.stores.active), Adds(events[0]), Added(events[1..]));
    }
  }

  lemma Appended(a: seq<Entry>, b: seq<Entry>, c: seq<Entry>)
    ensures (a + b) + c == a + (b + c)
  {
  }
}
