/** Replacing a snapshot of the memory by the model's merged entries, without losing concurrent edits. */
module Compaction {
  import opened Ordering
  import opened Entries
  import opened Maintenance
  import opened MaintainerOutput
  import opened Optional

  // ---- The merged entry ----

  function Lookup(current: seq<Entry>, id: string): Entry
    requires ById(current, id).Some?
  {
    ById(current, id).value
  }

  function SourcesOf(current: seq<Entry>, ids: seq<string>): seq<Entry>
    requires forall id | id in ids :: ById(current, id).Some?
  {
    seq(|ids|, k requires 0 <= k < |ids| => Lookup(current, ids[k]))
  }

  function TopicOf(e: Entry): string {
    if e.topic == "" then "general" else e.topic
  }

  function Least(xs: seq<int>): int
    requires xs != []
  {
    if |xs| == 1 then xs[0] else
      var rest := Least(xs[1..]);
      if xs[0] <= rest then xs[0] else rest
  }

  function Greatest(xs: seq<int>): int
    requires xs != []
  {
    if |xs| == 1 then xs[0] else
      var rest := Greatest(xs[1..]);
      if xs[0] >= rest then xs[0] else rest
  }

  function Highest(xs: seq<real>): real
    requires xs != []
  {
    if |xs| == 1 then xs[0] else
      var rest := Highest(xs[1..]);
      if xs[0] >= rest then xs[0] else rest
  }

  lemma {:induction false} LeastExact(xs: seq<int>)
    requires xs != []
    ensures Least(xs) in xs && forall x | x in xs :: Least(xs) <= x
  {
    assert xs == [xs[0]] + xs[1..];
    if |xs| > 1 { LeastExact(xs[1..]); }
  }

  lemma {:induction false} GreatestExact(xs: seq<int>)
    requires xs != []
    ensures Greatest(xs) in xs && forall x | x in xs :: x <= Greatest(xs)
  {
    assert xs == [xs[0]] + xs[1..];
    if |xs| > 1 { GreatestExact(xs[1..]); }
  }

  lemma {:induction false} HighestExact(xs: seq<real>)
    requires xs != []
    ensures Highest(xs) in xs && forall x | x in xs :: x <= Highest(xs)
  {
    assert xs == [xs[0]] + xs[1..];
    if |xs| > 1 { HighestExact(xs[1..]); }
  }

  function CreatedOf(es: seq<Entry>): (r: seq<int>)
    ensures |r| == |es| && forall k | 0 <= k < |es| :: r[k] == es[k].created
  {
    seq(|es|, k requires 0 <= k < |es| => es[k].created)
  }

  function LastUsedOf(es: seq<Entry>): (r: seq<int>)
    ensures |r| == |es| && forall k | 0 <= k < |es| :: r[k] == es[k].lastUsed
  {
    seq(|es|, k requires 0 <= k < |es| => es[k].lastUsed)
  }

  function ConfidencesOf(es: seq<Entry>): (r: seq<real>)
    ensures |r| == |es| && forall k | 0 <= k < |es| :: r[k] == es[k].confidence
  {
    seq(|es|, k requires 0 <= k < |es| => es[k].confidence)
  }

  predicate OneTopic(sources: seq<Entry>) {
    forall s | s in sources :: TopicOf(s) == TopicOf(sources[0])
  }

  predicate AnyRejected(sources: seq<Entry>) {
    sources != [] && (sources[0].coreStatus == "rejected" || AnyRejected(sources[1..]))
  }

  function MergedEntry(sources: seq<Entry>, id: string, content: string): Entry
    requires sources != []
  {
    Entry(id, content,
          Least(CreatedOf(sources)), Greatest(LastUsedOf(sources)),
          TotalHits(sources), "compact", Highest(ConfidencesOf(sources)),
          if OneTopic(sources) then TopicOf(sources[0]) else "general",
          if AnyRejected(sources) then "rejected" else "none",
          "")
  }

  /** A merged entry carries the topic of its sources if they have one in common, where none reads as "general"; it is
      rejected if any source is, and otherwise claims no status. */
  lemma MergedLabels(sources: seq<Entry>, id: string, content: string, topic: string)
    requires sources != []
    ensures var e := MergedEntry(sources, id, content);
            && e.id == id && e.content == content && e.source == "compact" && e.entryType == ""
            && (e.coreStatus == "rejected" <==> exists s :: s in sources && s.coreStatus == "rejected")
            && (e.coreStatus != "rejected" ==> e.coreStatus == "none")
    ensures topic != "" && (forall s | s in sources :: s.topic == topic) ==> MergedEntry(sources, id, content).topic == topic
    ensures (exists s, t :: s in sources && t in sources && s.topic != t.topic && s.topic != "" && t.topic != "") ==>
              MergedEntry(sources, id, content).topic == "general"
    ensures (exists s :: s in sources && s.topic == "") ==> MergedEntry(sources, id, content).topic == "general"
  {
    assert sources[0] in sources;
    RejectedIff(sources);
  }

  lemma {:induction false} RejectedIff(sources: seq<Entry>)
    ensures AnyRejected(sources) <==> exists s :: s in sources && s.coreStatus == "rejected"
  {
    if sources != [] {
      RejectedIff(sources[1..]);
      assert sources == [sources[0]] + sources[1..];
      assert forall s :: s in sources <==> s == sources[0] || s in sources[1..];
    }
  }

  /** How the store names new entries and trims text; both come from outside. */
  datatype Maker = Maker(newId: nat -> string, strip: string -> string)

  function Compacted(current: seq<Entry>, parsed: seq<Merged>, maker: Maker): (es: seq<Entry>)
    requires ParsedAgainst(current, parsed)
    ensures |es| == |parsed| && forall e | e in es :: !e.IsCorrection()
  {
    CompactedUpTo(current, parsed, maker, |parsed|)
  }

  /** The entries made from the first `n` items. */
  function CompactedUpTo(current: seq<Entry>, parsed: seq<Merged>, maker: Maker, n: nat): (es: seq<Entry>)
    requires ParsedAgainst(current, parsed) && n <= |parsed|
    ensures |es| == n && forall e | e in es :: !e.IsCorrection()
  {
    if n == 0 then []
    else
      assert parsed[n - 1] in parsed;
      CompactedUpTo(current, parsed, maker, n - 1) + [CompactedItem(current, parsed[n - 1], n - 1, maker)]
  }

  function CompactedItem(current: seq<Entry>, item: Merged, k: nat, maker: Maker): (e: Entry)
    requires Resolvable(current, item)
    ensures e.hits == TotalHits(SourcesOf(current, item.sources)) && !e.IsCorrection()
  {
    MergedEntry(SourcesOf(current, item.sources), maker.newId(k), maker.strip(item.content))
  }

  /** The item names sources, and all of them exist. */
  ghost predicate Resolvable(current: seq<Entry>, item: Merged) {
    item.sources != [] && forall id | id in item.sources :: ById(current, id).Some?
  }

  ghost predicate ParsedAgainst(current: seq<Entry>, parsed: seq<Merged>) {
    forall m | m in parsed :: Resolvable(current, m)
  }

  predicate IsConcurrent(e: Entry, snapshot: seq<Entry>) {
    e.id !in IdsOf(snapshot) && !e.IsCorrection()
  }

  /** Ordinary entries that were never part of the snapshot. */
  function Concurrent(current: seq<Entry>, snapshot: seq<Entry>): seq<Entry> {
    Filter(current, e => IsConcurrent(e, snapshot))
  }

  /** The specification of a commit that goes through. */
  function Rewritten(current: seq<Entry>, snapshot: seq<Entry>, parsed: seq<Merged>, maker: Maker): seq<Entry>
    requires ParsedAgainst(current, parsed)
  {
    Compacted(current, parsed, maker) + Concurrent(current, snapshot) + Corrections(current)
  }

  /** The snapshot survived unedited: every one of its ids still holds the same content. */
  predicate SnapshotCurrent(snapshot: seq<Entry>, current: seq<Entry>) {
    DecisionsCurrent(snapshot, current, IdsOf(snapshot))
  }

  /** The parsed output only names snapshot ids. */
  ghost predicate NamesSnapshot(snapshot: seq<Entry>, parsed: seq<Merged>) {
    forall m | m in parsed :: m.sources != [] && forall id | id in m.sources :: id in IdsOf(snapshot)
  }

  lemma NamedSourcesExist(snapshot: seq<Entry>, current: seq<Entry>, parsed: seq<Merged>)
    requires NamesSnapshot(snapshot, parsed) && SnapshotCurrent(snapshot, current)
    ensures ParsedAgainst(current, parsed)
  {
    forall m, id | m in parsed && id in m.sources ensures ById(current, id).Some? {
      assert StillCurrent(snapshot, current, id);
    }
  }

  method MergeItems(current: seq<Entry>, parsed: seq<Merged>, maker: Maker) returns (compacted: seq<Entry>)
    requires ParsedAgainst(current, parsed)
    ensures compacted == Compacted(current, parsed, maker)
  {
    compacted := [];
    for k := 0 to |parsed|
      invariant compacted == CompactedUpTo(current, parsed, maker, k)
    {
      assert parsed[k] in parsed;
      compacted := compacted + [CompactedItem(current, parsed[k], k, maker)];
    }
  }

  /** Revalidates the snapshot under the lock, then either rewrites the memory or leaves it alone. */
  method CommitCompaction(store: MemoryStore, snapshot: seq<Entry>, parsed: seq<Merged>, maker: Maker) returns (counts: Option<(nat, nat)>)
    requires NamesSnapshot(snapshot, parsed)
    modifies store
    ensures store.archive == old(store.archive) && store.trash == old(store.trash)
    ensures counts.Some? <==> SnapshotCurrent(snapshot, old(store.active))
    ensures counts.None? ==> store.active == old(store.active)
    ensures counts.Some? ==>
              && ParsedAgainst(old(store.active), parsed)
              && store.active == Rewritten(old(store.active), snapshot, parsed, maker)
              && counts.value == (|old(store.active)|, |store.active|)
  {
    var current := store.active;
    var pending := IdsOf(snapshot);
    while pending != {}
      invariant pending <= IdsOf(snapshot)
      invariant forall id | id in IdsOf(snapshot) - pending :: StillCurrent(snapshot, current, id)
      decreases pending
    {
      var id :| id in pending;
      if !StillCurrent(snapshot, current, id) {
        return None;
      }
      pending := pending - {id};
    }
    NamedSourcesExist(snapshot, current, parsed);
    var compacted := MergeItems(current, parsed, maker);
    var final := compacted + Concurrent(current, snapshot) + Corrections(current);
    store.active := final;
    counts := Some((|current|, |final|));
  }

  /** What the validator accepts names only the snapshot entries whose ids it was given. */
  lemma AcceptedNamesSnapshot(data: Json, snapshot: seq<Entry>, space: char -> bool)
    requires ValidCompaction(data, IdsOf(snapshot), space)
    ensures NamesSnapshot(snapshot, MergedOf(data.items, IdsOf(snapshot), space))
  {
    var ids := IdsOf(snapshot);
    var parsed := MergedOf(data.items, ids, space);
    forall m | m in parsed ensures m.sources != [] && forall id | id in m.sources :: id in ids {
      var k :| 0 <= k < |parsed| && parsed[k] == m;
      assert data.items[k] in data.items;
      var sources := Field(data.items[k], "sources").items;
      forall id | id in m.sources ensures id in ids {
        var x :| 0 <= x < |m.sources| && m.sources[x] == id;
        assert sources[x] in sources;
      }
    }
  }

  /** The snapshot is unchanged exactly when each of its entries is still there with the same content. */
  ghost predicate NothingEdited(snapshot: seq<Entry>, current: seq<Entry>) {
    forall s | s in snapshot :: exists e :: e in current && e.id == s.id && e.content == s.content
  }

  lemma SnapshotCurrentIff(snapshot: seq<Entry>, current: seq<Entry>)
    requires UniqueIds(snapshot) && UniqueIds(current)
    ensures SnapshotCurrent(snapshot, current) <==> NothingEdited(snapshot, current)
  {
    DecisionsCurrentIff(snapshot, current, IdsOf(snapshot));
    if SnapshotCurrent(snapshot, current) {
      forall s | s in snapshot ensures exists e :: e in current && e.id == s.id && e.content == s.content {
        assert Unedited(snapshot, current, s.id);
        var t, e :| t in snapshot && e in current && t.id == s.id && e.id == s.id && t.content == e.content;
        ByIdUnique(snapshot, t);
        ByIdUnique(snapshot, s);
      }
    }
    if NothingEdited(snapshot, current) {
      forall id | id in IdsOf(snapshot) ensures Unedited(snapshot, current, id) {
        var s :| s in snapshot && s.id == id;
        var e :| e in current && e.id == s.id && e.content == s.content;
      }
    }
  }

  /** The memory after the model's reply to a snapshot has been validated and committed, or not. */
  ghost function AfterCompaction(current: seq<Entry>, snapshot: seq<Entry>, data: Option<Json>, space: char -> bool, maker: Maker): seq<Entry> {
    if data.Some? && ValidCompaction(data.value, IdsOf(snapshot), space) && SnapshotCurrent(snapshot, current) then
      var parsed := MergedOf(data.value.items, IdsOf(snapshot), space);
      AcceptedNamesSnapshot(data.value, snapshot, space);
      NamedSourcesExist(snapshot, current, parsed);
      Rewritten(current, snapshot, parsed, maker)
    else current
  }

  lemma EditedIsNoticed(snapshot: seq<Entry>, current: seq<Entry>)
    requires UniqueIds(current)
    ensures (exists s, e :: s in snapshot && e in current && e.id == s.id && e.content != s.content) ==> !NothingEdited(snapshot, current)
  {
    if s, e :| s in snapshot && e in current && e.id == s.id && e.content != s.content {
      forall f | f in current && f.id == s.id ensures f == e {
        ByIdUnique(current, e);
        ByIdUnique(current, f);
      }
    }
  }

  /** From the model's reply to the commit; `data` is absent when the call or the decoding failed. */
  method Compact(store: MemoryStore, snapshot: seq<Entry>, data: Option<Json>, space: char -> bool, maker: Maker) returns (counts: Option<(nat, nat)>)
    modifies store
    ensures store.active == AfterCompaction(old(store.active), snapshot, data, space, maker)
    ensures store.archive == old(store.archive) && store.trash == old(store.trash)
    ensures counts.Some? <==> data.Some? && ValidCompaction(data.value, IdsOf(snapshot), space) && SnapshotCurrent(snapshot, old(store.active))
    ensures counts.Some? ==> counts.value == (|old(store.active)|, |store.active|)
    ensures UniqueIds(snapshot) && UniqueIds(old(store.active)) ==>
              && (counts.Some? <==> data.Some? && ValidCompaction(data.value, IdsOf(snapshot), space)
                                    && NothingEdited(snapshot, old(store.active)))
              && forall s, e | s in snapshot && e in old(store.active) && e.id == s.id && e.content != s.content :: e in store.active
  {
    if UniqueIds(snapshot) && UniqueIds(store.active) {
      SnapshotCurrentIff(snapshot, store.active);
      EditedIsNoticed(snapshot, store.active);
    }
    var parsed := ParseCompactOutput(data, IdsOf(snapshot), space);
    if parsed.None? {
      return None;
    }
    AcceptedNamesSnapshot(data.value, snapshot, space);
    counts := CommitCompaction(store, snapshot, parsed.value, maker);
  }

  // ---- Nothing concurrent is lost ----

  lemma NoCorrectionsAdded(current: seq<Entry>, snapshot: seq<Entry>, parsed: seq<Merged>, maker: Maker)
    requires ParsedAgainst(current, parsed)
    ensures Corrections(Compacted(current, parsed, maker)) == [] && Corrections(Concurrent(current, snapshot)) == []
    ensures Corrections(Corrections(current)) == Corrections(current)
  {
    RejectNone(Compacted(current, parsed, maker), (e: Entry) => e.IsCorrection());
    RejectNone(Concurrent(current, snapshot), (e: Entry) => e.IsCorrection());
    FilterAll(Corrections(current), (e: Entry) => e.IsCorrection());
  }

  /** Whatever changed while the model was thinking: a commit that goes through keeps every entry added since,
      and every correction, the latter in their order. */
  lemma ConcurrentEditsSurvive(current: seq<Entry>, snapshot: seq<Entry>, parsed: seq<Merged>, maker: Maker)
    requires ParsedAgainst(current, parsed)
    ensures forall e | e in current && (e.id !in IdsOf(snapshot) || e.IsCorrection()) :: e in Rewritten(current, snapshot, parsed, maker)
    ensures Corrections(Rewritten(current, snapshot, parsed, maker)) == Corrections(current)
  {
    var compacted, kept := Compacted(current, parsed, maker), Concurrent(current, snapshot);
    forall e | e in current && (e.id !in IdsOf(snapshot) || e.IsCorrection()) ensures e in Rewritten(current, snapshot, parsed, maker) {
      assert e in kept || e in Corrections(current);
    }
    NoCorrectionsAdded(current, snapshot, parsed, maker);
    CorrectionsConcat(compacted + kept, Corrections(current));
    CorrectionsConcat(compacted, kept);
  }

  lemma {:induction false} CompactedAt(current: seq<Entry>, parsed: seq<Merged>, maker: Maker, n: nat, k: nat)
    requires ParsedAgainst(current, parsed) && k < n <= |parsed|
    ensures parsed[k] in parsed && CompactedUpTo(current, parsed, maker, n)[k] == CompactedItem(current, parsed[k], k, maker)
  {
    assert parsed[n - 1] in parsed;
    var init, item := CompactedUpTo(current, parsed, maker, n - 1), CompactedItem(current, parsed[n - 1], n - 1, maker);
    assert CompactedUpTo(current, parsed, maker, n) == init + [item];
    if k < n - 1 { CompactedAt(current, parsed, maker, n - 1, k); }
  }

  /** Each merged entry carries the sums and extremes of what its sources hold now, not of what they held when the
      snapshot was taken. */
  lemma MergedIsCurrent(current: seq<Entry>, parsed: seq<Merged>, maker: Maker, k: nat)
    requires ParsedAgainst(current, parsed) && k < |parsed|
    ensures parsed[k] in parsed && Resolvable(current, parsed[k])
    ensures var m, sources := Compacted(current, parsed, maker)[k], SourcesOf(current, parsed[k].sources);
            && m.hits == TotalHits(sources)
            && m.created in CreatedOf(sources) && m.lastUsed in LastUsedOf(sources) && m.confidence in ConfidencesOf(sources)
            && forall s | s in sources :: m.created <= s.created && m.lastUsed >= s.lastUsed && m.confidence >= s.confidence
  {
    CompactedAt(current, parsed, maker, |parsed|, k);
    var sources := SourcesOf(current, parsed[k].sources);
    LeastExact(CreatedOf(sources));
    GreatestExact(LastUsedOf(sources));
    HighestExact(ConfidencesOf(sources));
    forall s | s in sources
      ensures s.created in CreatedOf(sources) && s.lastUsed in LastUsedOf(sources) && s.confidence in ConfidencesOf(sources)
    {
      var x :| 0 <= x < |sources| && sources[x] == s;
      assert CreatedOf(sources)[x] == s.created && LastUsedOf(sources)[x] == s.lastUsed;
      assert ConfidencesOf(sources)[x] == s.confidence;
    }
  }

  // ---- Accounting for hits ----

  lemma {:induction false} ByIdFinds(es: seq<Entry>, id: string) returns (x: nat)
    requires ById(es, id).Some?
    ensures x < |es| && es[x] == ById(es, id).value && es[x].id == id
  {
    if es[|es| - 1].id == id {
      x := |es| - 1;
    } else {
      x := ByIdFinds(es[..|es| - 1], id);
    }
  }

  /** All source ids of the output, with repetitions. */
  function AllSources(parsed: seq<Merged>): seq<string> {
    if parsed == [] then [] else AllSources(parsed[..|parsed| - 1]) + parsed[|parsed| - 1].sources
  }

  function Times(ids: seq<string>, id: string): nat {
    multiset(ids)[id]
  }

  /** How often the commit counts the hits of a current entry. */
  function Copies(e: Entry, snapshot: seq<Entry>, parsed: seq<Merged>): nat {
    Times(AllSources(parsed), e.id) + (if e.IsCorrection() || IsConcurrent(e, snapshot) then 1 else 0)
  }

  ghost function Uses(es: seq<Entry>, ids: seq<string>): (ws: seq<int>)
    ensures |ws| == |es| && forall k | 0 <= k < |es| :: ws[k] == Times(ids, es[k].id) * es[k].hits
  {
    seq(|es|, k requires 0 <= k < |es| => Times(ids, es[k].id) * es[k].hits)
  }

  ghost function Balance(es: seq<Entry>, snapshot: seq<Entry>, parsed: seq<Merged>): (ws: seq<int>)
    ensures |ws| == |es| && forall k | 0 <= k < |es| :: ws[k] == Copies(es[k], snapshot, parsed) * es[k].hits
  {
    seq(|es|, k requires 0 <= k < |es| => Copies(es[k], snapshot, parsed) * es[k].hits)
  }

  ghost function Flagged(es: seq<Entry>, p: Entry -> bool): (ws: seq<int>)
    ensures |ws| == |es| && forall k | 0 <= k < |es| :: ws[k] == if p(es[k]) then es[k].hits else 0
  {
    seq(|es|, k requires 0 <= k < |es| => if p(es[k]) then es[k].hits else 0)
  }

  lemma OneMoreUse(current: seq<Entry>, ids: seq<string>, x: nat)
    requires UniqueIds(current) && x < |current|
    ensures Sum(Uses(current, ids + [current[x].id])) == Sum(Uses(current, ids)) + current[x].hits
  {
    var last := current[x].id;
    var before, after := Uses(current, ids), Uses(current, ids + [last]);
    forall k | 0 <= k < |current| ensures after[k] == if k == x then before[k] + current[x].hits else before[k] {
      assert Times(ids + [last], current[k].id) == Times(ids, current[k].id) + (if k == x then 1 else 0);
    }
    assert after == before[x := before[x] + current[x].hits];
    SumUpdate(before, x, before[x] + current[x].hits);
  }

  lemma OneMoreSource(current: seq<Entry>, ids: seq<string>, id: string)
    requires (forall i | i in ids :: ById(current, i).Some?) && ById(current, id).Some?
    ensures TotalHits(SourcesOf(current, ids + [id])) == TotalHits(SourcesOf(current, ids)) + Lookup(current, id).hits
  {
    assert SourcesOf(current, ids + [id]) == SourcesOf(current, ids) + [Lookup(current, id)];
    TotalHitsConcat(SourcesOf(current, ids), [Lookup(current, id)]);
    TotalHitsOne(Lookup(current, id));
  }

  lemma {:induction false} SourceHits(current: seq<Entry>, ids: seq<string>)
    requires UniqueIds(current) && forall id | id in ids :: ById(current, id).Some?
    ensures TotalHits(SourcesOf(current, ids)) == Sum(Uses(current, ids))
  {
    if ids == [] {
      SumOfZeros(Uses(current, ids));
    } else {
      var init, last := ids[..|ids| - 1], ids[|ids| - 1];
      assert ids == init + [last];
      SourceHits(current, init);
      var x := ByIdFinds(current, last);
      OneMoreSource(current, init, last);
      OneMoreUse(current, init, x);
    }
  }

  lemma {:induction false} SumAdds(a: seq<int>, b: seq<int>, c: seq<int>)
    requires |a| == |b| == |c| && forall k | 0 <= k < |a| :: c[k] == a[k] + b[k]
    ensures Sum(c) == Sum(a) + Sum(b)
  {
    if a != [] { SumAdds(a[1..], b[1..], c[1..]); }
  }

  lemma {:induction false} FilteredHits(es: seq<Entry>, p: Entry -> bool)
    ensures TotalHits(Filter(es, p)) == Sum(Flagged(es, p))
  {
    if es != [] {
      var h, t := es[0], es[1..];
      FilteredHits(t, p);
      assert Flagged(es, p)[1..] == Flagged(t, p);
      assert Filter(es, p) == (if p(h) then [h] else []) + Filter(t, p);
      if p(h) {
        TotalHitsConcat([h], Filter(t, p));
        TotalHitsOne(h);
      } else {
        assert Filter(es, p) == Filter(t, p);
      }
    }
  }

  lemma SourcesConcat(current: seq<Entry>, a: seq<string>, b: seq<string>)
    requires (forall id | id in a :: ById(current, id).Some?) && forall id | id in b :: ById(current, id).Some?
    ensures TotalHits(SourcesOf(current, a + b)) == TotalHits(SourcesOf(current, a)) + TotalHits(SourcesOf(current, b))
  {
    assert SourcesOf(current, a + b) == SourcesOf(current, a) + SourcesOf(current, b);
    TotalHitsConcat(SourcesOf(current, a), SourcesOf(current, b));
  }

  lemma {:induction false} CompactedHits(current: seq<Entry>, parsed: seq<Merged>, maker: Maker, n: nat)
    requires ParsedAgainst(current, parsed) && n <= |parsed|
    ensures forall id | id in AllSources(parsed[..n]) :: ById(current, id).Some?
    ensures TotalHits(CompactedUpTo(current, parsed, maker, n)) == TotalHits(SourcesOf(current, AllSources(parsed[..n])))
  {
    if n > 0 {
      var init, last := CompactedUpTo(current, parsed, maker, n - 1), parsed[n - 1];
      assert last in parsed;
      assert parsed[..n][..n - 1] == parsed[..n - 1];
      CompactedHits(current, parsed, maker, n - 1);
      var item := CompactedItem(current, last, n - 1, maker);
      TotalHitsConcat(init, [item]);
      TotalHitsOne(item);
      SourcesConcat(current, AllSources(parsed[..n - 1]), last.sources);
    }
  }

  lemma Distribute(a: int, b: int, h: int)
    ensures (a + b) * h == a * h + b * h
  {
  }

  lemma CopiesSplit(e: Entry, snapshot: seq<Entry>, parsed: seq<Merged>)
    ensures Copies(e, snapshot, parsed) * e.hits
         == Times(AllSources(parsed), e.id) * e.hits + (if IsConcurrent(e, snapshot) then e.hits else 0)
          + (if e.IsCorrection() then e.hits else 0)
  {
    Distribute(Times(AllSources(parsed), e.id), if e.IsCorrection() || IsConcurrent(e, snapshot) then 1 else 0, e.hits);
  }

  lemma CopiesAdd(current: seq<Entry>, snapshot: seq<Entry>, parsed: seq<Merged>)
    ensures Sum(Balance(current, snapshot, parsed))
         == Sum(Uses(current, AllSources(parsed))) + Sum(Flagged(current, e => IsConcurrent(e, snapshot)))
          + Sum(Flagged(current, (e: Entry) => e.IsCorrection()))
  {
    var a, b := Uses(current, AllSources(parsed)), Flagged(current, e => IsConcurrent(e, snapshot));
    var c, d := Flagged(current, (e: Entry) => e.IsCorrection()), Balance(current, snapshot, parsed);
    var ab := seq(|current|, k requires 0 <= k < |current| => a[k] + b[k]);
    SumAdds(a, b, ab);
    forall k | 0 <= k < |current| ensures d[k] == ab[k] + c[k] {
      CopiesSplit(current[k], snapshot, parsed);
    }
    SumAdds(ab, c, d);
  }

  /** The exact balance: after a commit, every current entry's hits are counted `Copies` times. */
  lemma HitsBalance(current: seq<Entry>, snapshot: seq<Entry>, parsed: seq<Merged>, maker: Maker)
    requires UniqueIds(current) && ParsedAgainst(current, parsed)
    ensures TotalHits(Rewritten(current, snapshot, parsed, maker)) == Sum(Balance(current, snapshot, parsed))
  {
    var compacted, kept, corr := Compacted(current, parsed, maker), Concurrent(current, snapshot), Corrections(current);
    TotalHitsConcat(compacted + kept, corr);
    TotalHitsConcat(compacted, kept);
    CompactedHits(current, parsed, maker, |parsed|);
    assert parsed[..|parsed|] == parsed;
    SourceHits(current, AllSources(parsed));
    FilteredHits(current, e => IsConcurrent(e, snapshot));
    FilteredHits(current, (e: Entry) => e.IsCorrection());
    CopiesAdd(current, snapshot, parsed);
  }

  /** The sources partition the snapshot: each ordinary current entry of the snapshot is used exactly once, and no correction is. */
  ghost predicate Partitions(current: seq<Entry>, snapshot: seq<Entry>, parsed: seq<Merged>) {
    forall e | e in current :: Times(AllSources(parsed), e.id) == if e.IsCorrection() || IsConcurrent(e, snapshot) then 0 else 1
  }

  /** The same store contents with other hit counts. */
  function WithHits(es: seq<Entry>, hits: seq<nat>): seq<Entry>
    requires |hits| == |es|
  {
    seq(|es|, k requires 0 <= k < |es| => es[k].(hits := hits[k]))
  }

  lemma {:induction false} ByIdWithHits(es: seq<Entry>, hits: seq<nat>, id: string)
    requires |hits| == |es|
    ensures ById(WithHits(es, hits), id).Some? <==> ById(es, id).Some?
  {
    if es != [] {
      assert WithHits(es, hits)[..|es| - 1] == WithHits(es[..|es| - 1], hits[..|es| - 1]);
      ByIdWithHits(es[..|es| - 1], hits[..|es| - 1], id);
    }
  }

  lemma WithHitsKeepsShape(current: seq<Entry>, hits: seq<nat>, snapshot: seq<Entry>, parsed: seq<Merged>)
    requires |hits| == |current|
    ensures ParsedAgainst(current, parsed) ==> ParsedAgainst(WithHits(current, hits), parsed)
    ensures UniqueIds(current) ==> UniqueIds(WithHits(current, hits))
    ensures Partitions(current, snapshot, parsed) ==> Partitions(WithHits(current, hits), snapshot, parsed)
  {
    forall m, id | m in parsed && id in m.sources ensures ById(WithHits(current, hits), id).Some? <==> ById(current, id).Some? {
      ByIdWithHits(current, hits, id);
    }
    forall e | e in WithHits(current, hits) ensures exists f :: f in current && f == e.(hits := f.hits) {
      var k :| 0 <= k < |current| && WithHits(current, hits)[k] == e;
      assert current[k] in current;
    }
  }

  /** Total hits are conserved for every possible hit count exactly when the sources partition the snapshot. */
  lemma ConservedIffPartition(current: seq<Entry>, snapshot: seq<Entry>, parsed: seq<Merged>, maker: Maker)
    requires UniqueIds(current) && ParsedAgainst(current, parsed)
    ensures (forall hits: seq<nat> | |hits| == |current| :: Conserves(current, snapshot, parsed, maker, hits))
            <==> Partitions(current, snapshot, parsed)
  {
    if Partitions(current, snapshot, parsed) {
      forall hits: seq<nat> | |hits| == |current| ensures Conserves(current, snapshot, parsed, maker, hits) {
        PartitionConserves(current, snapshot, parsed, maker, hits);
      }
    } else {
      var e :| e in current && Times(AllSources(parsed), e.id) != if e.IsCorrection() || IsConcurrent(e, snapshot) then 0 else 1;
      var x :| 0 <= x < |current| && current[x] == e;
      UnbalancedEntry(current, snapshot, parsed, maker, x);
    }
  }

  ghost predicate Conserves(current: seq<Entry>, snapshot: seq<Entry>, parsed: seq<Merged>, maker: Maker, hits: seq<nat>)
    requires |hits| == |current|
  {
    var es := WithHits(current, hits);
    ParsedAgainst(es, parsed) && TotalHits(Rewritten(es, snapshot, parsed, maker)) == TotalHits(es)
  }

  lemma BalanceDecides(current: seq<Entry>, snapshot: seq<Entry>, parsed: seq<Merged>, maker: Maker, hits: seq<nat>)
    requires UniqueIds(current) && ParsedAgainst(current, parsed) && |hits| == |current|
    ensures Conserves(current, snapshot, parsed, maker, hits)
            <==> Sum(Balance(WithHits(current, hits), snapshot, parsed)) == Sum(hits)
  {
    WithHitsKeepsShape(current, hits, snapshot, parsed);
    HitsBalance(WithHits(current, hits), snapshot, parsed, maker);
    HitsAreGiven(current, hits);
  }

  lemma HitsAreGiven(current: seq<Entry>, hits: seq<nat>)
    requires |hits| == |current|
    ensures TotalHits(WithHits(current, hits)) == Sum(hits)
  {
    assert HitsOf(WithHits(current, hits)) == hits;
  }

  /** How often an entry is counted does not depend on its hits. */
  lemma CopiesIgnoreHits(current: seq<Entry>, hits: seq<nat>, snapshot: seq<Entry>, parsed: seq<Merged>, k: nat)
    requires |hits| == |current| && k < |current|
    ensures Copies(WithHits(current, hits)[k], snapshot, parsed) == Copies(current[k], snapshot, parsed)
    ensures Balance(WithHits(current, hits), snapshot, parsed)[k] == Copies(current[k], snapshot, parsed) * hits[k]
  {
    assert WithHits(current, hits)[k] == current[k].(hits := hits[k]);
  }

  lemma PartitionConserves(current: seq<Entry>, snapshot: seq<Entry>, parsed: seq<Merged>, maker: Maker, hits: seq<nat>)
    requires UniqueIds(current) && ParsedAgainst(current, parsed) && |hits| == |current|
    requires Partitions(current, snapshot, parsed)
    ensures Conserves(current, snapshot, parsed, maker, hits)
  {
    BalanceDecides(current, snapshot, parsed, maker, hits);
    var es := WithHits(current, hits);
    forall k | 0 <= k < |es| ensures Copies(es[k], snapshot, parsed) == 1 {
      assert current[k] in current;
      CopiesIgnoreHits(current, hits, snapshot, parsed, k);
    }
    assert Balance(es, snapshot, parsed) == hits;
  }

  /** An entry counted other than once unbalances the total as soon as it is the only one with hits. */
  lemma UnbalancedEntry(current: seq<Entry>, snapshot: seq<Entry>, parsed: seq<Merged>, maker: Maker, x: nat)
    requires UniqueIds(current) && ParsedAgainst(current, parsed) && x < |current|
    requires Copies(current[x], snapshot, parsed) != 1
    ensures exists hits: seq<nat> :: |hits| == |current| && !Conserves(current, snapshot, parsed, maker, hits)
  {
    var hits: seq<nat> := seq(|current|, k => if k == x then 1 else 0);
    BalanceDecides(current, snapshot, parsed, maker, hits);
    OnlyOneHit(current, snapshot, parsed, x, hits);
    assert !Conserves(current, snapshot, parsed, maker, hits);
  }

  lemma OnlyOneHit(current: seq<Entry>, snapshot: seq<Entry>, parsed: seq<Merged>, x: nat, hits: seq<nat>)
    requires x < |current| == |hits| && forall k | 0 <= k < |hits| :: hits[k] == if k == x then 1 else 0
    ensures Sum(hits) == 1
    ensures Sum(Balance(WithHits(current, hits), snapshot, parsed)) == Copies(current[x], snapshot, parsed)
  {
    var ws := Balance(WithHits(current, hits), snapshot, parsed);
    forall k | 0 <= k < |ws| ensures ws[k] == if k == x then Copies(current[x], snapshot, parsed) else 0 {
      CopiesIgnoreHits(current, hits, snapshot, parsed, k);
    }
    SumOfSingle(hits, x);
    SumOfSingle(ws, x);
  }

  // ---- An accepted reply that does not conserve hits ----

  function Plain(id: string, content: string, hits: int): Entry {
    Entry(id, content, 0, 0, hits, "user", 1.0, "general", "none", "")
  }

  function Item(content: string, sources: seq<Json>): Json {
    Obj(map["content" := Str(content), "hits" := Int(0), "sources" := Arr(sources)])
  }

  const A := Plain("a", "one", 1)
  const B := Plain("b", "two", 0)

  // The first entry is a source of both items.
  const TWICE := Arr([Item("one two", [Str("a"), Str("b")]), Item("one", [Str("a")])])

  lemma ItemIsAccepted(content: string, sources: seq<Json>, ids: set<string>, space: char -> bool)
    requires content != "" && !space(content[0]) && sources != [] && forall s | s in sources :: IsId(s, ids)
    ensures MergedShape(Item(content, sources), ids, space)
    ensures OneMerged(Item(content, sources), ids, space) == Merged(content, Strings(sources))
  {
  }

  const PARSED := [Merged("one two", ["a", "b"]), Merged("one", ["a"])]

  lemma TwiceIsAccepted(space: char -> bool)
    requires !space('o')
    ensures ValidCompaction(TWICE, {"a", "b"}, space) && MergedOf(TWICE.items, {"a", "b"}, space) == PARSED
  {
    var ids := {"a", "b"};
    ItemIsAccepted("one two", [Str("a"), Str("b")], ids, space);
    ItemIsAccepted("one", [Str("a")], ids, space);
    assert Strings([Str("a"), Str("b")]) == ["a", "b"] && Strings([Str("a")]) == ["a"];
    var parsed := MergedOf(TWICE.items, ids, space);
    assert parsed[0] == OneMerged(TWICE.items[0], ids, space) && parsed[1] == OneMerged(TWICE.items[1], ids, space);
  }

  lemma BothAreThere()
    ensures IdsOf([A, B]) == {"a", "b"} && SnapshotCurrent([A, B], [A, B]) && UniqueIds([A, B])
  {
    var es := [A, B];
    assert "a"[0] != "b"[0];
    assert A in es && B in es;
    assert es[..1] == [A];
    assert ById(es, "b") == Some(B) && ById([A], "a") == Some(A) && ById(es, "a") == Some(A);
  }

  lemma SourcesInTwice()
    ensures AllSources(PARSED) == ["a", "b", "a"]
  {
    assert PARSED[..1] == [PARSED[0]] && PARSED[..1][..0] == [];
    assert AllSources(PARSED[..1]) == [] + ["a", "b"] == ["a", "b"];
    assert ["a", "b"] + ["a"] == ["a", "b", "a"];
  }

  lemma SumOfTwo(x: int, y: int)
    ensures Sum([x, y]) == x + y
  {
    assert [x, y][1..] == [y] && [y][1..] == [];
    assert Sum([y]) == y + Sum([]);
  }

  lemma CountedTwice()
    ensures Sum(Balance([A, B], [A, B], PARSED)) == 2 && TotalHits([A, B]) == 1
  {
    var es := [A, B];
    SourcesInTwice();
    assert Times(["a", "b", "a"], "a") == 2;
    assert A in es && !IsConcurrent(A, es) && A.id in IdsOf(es);
    assert Balance(es, es, PARSED) == [2, 0];
    assert HitsOf(es) == [1, 0];
    SumOfTwo(2, 0);
    SumOfTwo(1, 0);
  }

  /** The validator accepts this reply, and committing it turns one hit into two. */
  lemma SourceUsedTwiceAddsHits(space: char -> bool, maker: Maker)
    requires !space('o')
    ensures ValidCompaction(TWICE, IdsOf([A, B]), space) && SnapshotCurrent([A, B], [A, B])
    ensures TotalHits(AfterCompaction([A, B], [A, B], Some(TWICE), space, maker)) == 2 && TotalHits([A, B]) == 1
  {
    var es := [A, B];
    BothAreThere();
    TwiceIsAccepted(space);
    CountedTwice();
    AcceptedNamesSnapshot(TWICE, es, space);
    NamedSourcesExist(es, es, PARSED);
    HitsBalance(es, es, PARSED, maker);
  }
}
