/** Greedy merging of near-duplicate memory entries. */
module Dedup {
  import opened Ordering
  import opened Entries
  import opened Clustering

  type Tokenizer = string -> set<string>

  ghost predicate Near(tokens: Tokenizer, threshold: real, a: Entry, b: Entry) {
    Jaccard(tokens(a.content), tokens(b.content)) >= threshold
  }

  // ---- The priority order ----

  /** Most-used first, then oldest. */
  predicate HigherOrEqual(es: seq<Entry>, i: nat, j: nat) {
    if i < |es| && j < |es| then
      es[i].hits > es[j].hits || (es[i].hits == es[j].hits && es[i].created <= es[j].created)
    else i < |es| || j >= |es|
  }

  function OrdinaryIndices(es: seq<Entry>, from: nat): (r: seq<nat>)
    requires from <= |es|
    ensures forall i: nat :: i in r <==> from <= i < |es| && !es[i].IsCorrection()
    ensures forall x | 0 <= x < |r| :: from <= r[x] < |es|
    ensures |r| <= |es| - from
    ensures forall x, y | 0 <= x < y < |r| :: r[x] < r[y]
    decreases |es| - from
  {
    if from == |es| then []
    else (if es[from].IsCorrection() then [] else [from]) + OrdinaryIndices(es, from + 1)
  }

  function PriorityOrder(es: seq<Entry>): seq<nat> {
    SortBy(OrdinaryIndices(es, 0), (i, j) => HigherOrEqual(es, i, j))
  }

  lemma DistinctByCount<T(!new)>(s: seq<T>, t: seq<T>)
    requires Distinct(s) && multiset(s) == multiset(t)
    ensures Distinct(t)
  {
    forall x, y | 0 <= x < y < |t| ensures t[x] != t[y] {
      if t[x] == t[y] {
        assert t == t[..x] + [t[x]] + t[x + 1..y] + [t[y]] + t[y + 1..];
        assert multiset(t)[t[x]] >= 2;
        DistinctCount(s, t[x]);
      }
    }
  }

  lemma {:induction false} DistinctCount<T(!new)>(s: seq<T>, x: T)
    requires Distinct(s)
    ensures multiset(s)[x] <= 1
  {
    if s != [] {
      DistinctCount(s[1..], x);
      assert s == [s[0]] + s[1..];
      if s[0] == x {
        assert x !in s[1..];
        assert multiset(s[1..])[x] == 0;
      }
    }
  }

  /** The order lists every ordinary entry exactly once. */
  lemma PriorityOrderExact(es: seq<Entry>)
    ensures var order := PriorityOrder(es);
            && Distinct(order) && InRange(order, |es|) && |order| <= |es|
            && (forall i: nat :: i in order <==> i < |es| && !es[i].IsCorrection())
  {
    var le := (i: nat, j: nat) => HigherOrEqual(es, i, j);
    SortPermutes(OrdinaryIndices(es, 0), le);
    SortKeepsItems(OrdinaryIndices(es, 0), le);
    var order := PriorityOrder(es);
    DistinctByCount(OrdinaryIndices(es, 0), order);
    forall k | 0 <= k < |order| ensures order[k] < |es| { assert order[k] in order; }
  }

  lemma PriorityOrderSorted(es: seq<Entry>, p: nat, q: nat)
    requires p < q < |PriorityOrder(es)|
    ensures HigherOrEqual(es, PriorityOrder(es)[p], PriorityOrder(es)[q])
  {
    var le := (i: nat, j: nat) => HigherOrEqual(es, i, j);
    SortSorts(OrdinaryIndices(es, 0), le);
  }

  ghost predicate InRange(order: seq<nat>, n: nat) {
    forall k | 0 <= k < |order| :: order[k] < n
  }

  // ---- Which entry absorbs which ----

  ghost predicate NoMatch(es: seq<Entry>, tokens: Tokenizer, threshold: real, order: seq<nat>, merged: map<nat, nat>, before: nat, q: nat)
    requires before <= |order| && q < |order| && InRange(order, |es|)
  {
    forall p | 0 <= p < before && order[p] !in merged :: !Near(tokens, threshold, es[order[p]], es[order[q]])
  }

  /** `order[p]` is the first surviving entry that is near `order[q]`. */
  ghost predicate FirstMatch(es: seq<Entry>, tokens: Tokenizer, threshold: real, order: seq<nat>, merged: map<nat, nat>, p: nat, q: nat)
    requires p < |order| && q < |order| && InRange(order, |es|)
  {
    && order[p] !in merged
    && Near(tokens, threshold, es[order[p]], es[order[q]])
    && NoMatch(es, tokens, threshold, order, merged, p, q)
  }

  function Min(a: int, b: int): int { if a <= b then a else b }

  /** What is known about position `q` once the first `pos` winners have been tried. */
  ghost predicate Decided(es: seq<Entry>, tokens: Tokenizer, threshold: real, order: seq<nat>, merged: map<nat, nat>, pos: nat, q: nat)
    requires pos <= |order| && q < |order| && InRange(order, |es|)
  {
    if order[q] in merged then
      exists p :: 0 <= p < pos && p < q && order[p] == merged[order[q]] && FirstMatch(es, tokens, threshold, order, merged, p, q)
    else NoMatch(es, tokens, threshold, order, merged, Min(pos, q), q)
  }

  /** Every entry is absorbed by the first surviving higher-priority entry near it, or survives if there is none. */
  ghost predicate GreedyMerge(es: seq<Entry>, tokens: Tokenizer, threshold: real, order: seq<nat>, merged: map<nat, nat>)
    requires InRange(order, |es|)
  {
    && (forall i | i in merged :: i in order)
    && AllDecided(es, tokens, threshold, order, merged, |order|)
  }

  ghost predicate AllDecided(es: seq<Entry>, tokens: Tokenizer, threshold: real, order: seq<nat>, merged: map<nat, nat>, pos: nat)
    requires pos <= |order| && InRange(order, |es|)
  {
    forall q | 0 <= q < |order| :: Decided(es, tokens, threshold, order, merged, pos, q)
  }

  lemma {:induction false} GreedyMergePrefixUnique(es: seq<Entry>, tokens: Tokenizer, threshold: real, order: seq<nat>,
                                  m: map<nat, nat>, m': map<nat, nat>, upTo: nat)
    requires InRange(order, |es|)
    requires Distinct(order) && upTo <= |order|
    requires GreedyMerge(es, tokens, threshold, order, m) && GreedyMerge(es, tokens, threshold, order, m')
    ensures forall q | 0 <= q < upTo :: (order[q] in m <==> order[q] in m') && (order[q] in m ==> m[order[q]] == m'[order[q]])
  {
    if upTo > 0 {
      var q := upTo - 1;
      GreedyMergePrefixUnique(es, tokens, threshold, order, m, m', q);
      assert Decided(es, tokens, threshold, order, m, |order|, q) && Decided(es, tokens, threshold, order, m', |order|, q);
      if order[q] in m {
        var p :| 0 <= p < q && order[p] == m[order[q]] && FirstMatch(es, tokens, threshold, order, m, p, q);
        if order[q] in m' {
          var p' :| 0 <= p' < q && order[p'] == m'[order[q]] && FirstMatch(es, tokens, threshold, order, m', p', q);
          assert p == p';
        }
      }
    }
  }

  /** The greedy rule determines the merge map. */
  lemma GreedyMergeUnique(es: seq<Entry>, tokens: Tokenizer, threshold: real, order: seq<nat>, m: map<nat, nat>, m': map<nat, nat>)
    requires Distinct(order) && InRange(order, |es|)
    requires GreedyMerge(es, tokens, threshold, order, m) && GreedyMerge(es, tokens, threshold, order, m')
    ensures m == m'
  {
    GreedyMergePrefixUnique(es, tokens, threshold, order, m, m', |order|);
    forall i ensures (i in m <==> i in m') && (i in m ==> m[i] == m'[i]) {
      if i in order {
        var q :| 0 <= q < |order| && order[q] == i;
      }
    }
  }

  // ---- What absorbing does ----

  function Absorb(w: Entry, l: Entry): Entry {
    w.(hits := w.hits + l.hits,
       created := if l.created < w.created then l.created else w.created,
       lastUsed := if l.lastUsed > w.lastUsed then l.lastUsed else w.lastUsed,
       confidence := if l.confidence > w.confidence then l.confidence else w.confidence)
  }

  ghost predicate Enumerates(losers: seq<nat>, merged: map<nat, nat>) {
    Distinct(losers) && forall i :: i in losers <==> i in merged
  }

  /** Winners survive and every index is in range. */
  ghost predicate MergesInto(es: seq<Entry>, merged: map<nat, nat>) {
    forall i | i in merged :: i < |es| && merged[i] < |es| && merged[i] !in merged
  }

  /** Entry `w` after the first `k` losers have been folded in. */
  function Folded(es: seq<Entry>, merged: map<nat, nat>, losers: seq<nat>, k: nat, w: nat): Entry
    requires k <= |losers| && w < |es|
    requires forall i | i in losers :: i in merged && i < |es|
  {
    if k == 0 then es[w]
    else
      var prev := Folded(es, merged, losers, k - 1, w);
      if merged[losers[k - 1]] == w then Absorb(prev, es[losers[k - 1]]) else prev
  }

  /** What survives of the entry at `i`. */
  function SurvivorAs(es: seq<Entry>, merged: map<nat, nat>, losers: seq<nat>, i: nat): seq<Entry>
    requires i < |es| && forall j | j in losers :: j in merged && j < |es|
  {
    if i in merged then [] else [Folded(es, merged, losers, |losers|, i)]
  }

  /** The surviving entries, in their original order, with everything absorbed. */
  function Survivors(es: seq<Entry>, merged: map<nat, nat>, losers: seq<nat>, upTo: nat): seq<Entry>
    requires upTo <= |es|
    requires forall i | i in losers :: i in merged && i < |es|
  {
    if upTo == 0 then []
    else
      Survivors(es, merged, losers, upTo - 1) + SurvivorAs(es, merged, losers, upTo - 1)
  }

  /** The declarative meaning of one deduplication pass. */
  ghost predicate DedupTo(es: seq<Entry>, tokens: Tokenizer, threshold: real, out: seq<Entry>) {
    exists merged, losers :: DedupVia(es, tokens, threshold, merged, losers, out)
  }

  ghost predicate DedupVia(es: seq<Entry>, tokens: Tokenizer, threshold: real, merged: map<nat, nat>, losers: seq<nat>, out: seq<Entry>) {
    && InRange(PriorityOrder(es), |es|)
    && GreedyMerge(es, tokens, threshold, PriorityOrder(es), merged)
    && Enumerates(losers, merged)
    && MergesInto(es, merged)
    && out == Survivors(es, merged, losers, |es|)
  }

  /** The double loop: fills the loser-to-winner map. */
  method FindMerges(es: seq<Entry>, tokens: Tokenizer, threshold: real, order: seq<nat>)
      returns (merged: map<nat, nat>, losers: seq<nat>)
    requires Distinct(order) && InRange(order, |es|)
    ensures GreedyMerge(es, tokens, threshold, order, merged)
    ensures Enumerates(losers, merged) && MergesInto(es, merged)
  {
    merged, losers := map[], [];
    for pos := 0 to |order|
      invariant forall i | i in merged :: i in order
      invariant AllDecided(es, tokens, threshold, order, merged, pos)
      invariant Enumerates(losers, merged)
    {
      var winner := order[pos];
      if winner !in merged {
        merged, losers := AbsorbFrom(es, tokens, threshold, order, pos, merged, losers);
      } else {
        SkipWinner(es, tokens, threshold, order, merged, pos);
      }
    }
    forall i | i in merged ensures i < |es| && merged[i] < |es| && merged[i] !in merged {
      assert i in order;
      var q :| 0 <= q < |order| && order[q] == i;
      assert Decided(es, tokens, threshold, order, merged, |order|, q);
      var p :| 0 <= p < q && order[p] == merged[order[q]] && FirstMatch(es, tokens, threshold, order, merged, p, q);
      assert order[p] in order;
    }
  }

  lemma SkipWinner(es: seq<Entry>, tokens: Tokenizer, threshold: real, order: seq<nat>, merged: map<nat, nat>, pos: nat)
    requires pos < |order| && InRange(order, |es|) && order[pos] in merged
    requires AllDecided(es, tokens, threshold, order, merged, pos)
    ensures AllDecided(es, tokens, threshold, order, merged, pos + 1)
  {
    forall q: nat, next: nat | q < |order| && next == pos + 1 ensures Decided(es, tokens, threshold, order, merged, next, q) {
      assert Decided(es, tokens, threshold, order, merged, pos, q);
    }
  }

  /** Position `q` as the inner loop leaves it: tried against `pos` when `q < done`. */
  ghost predicate HalfDecided(es: seq<Entry>, tokens: Tokenizer, threshold: real, order: seq<nat>, merged: map<nat, nat>, pos: nat, done: nat, q: nat)
    requires pos < |order| && q < |order| && InRange(order, |es|)
  {
    Decided(es, tokens, threshold, order, merged, if q < done then pos + 1 else pos, q)
  }

  ghost predicate AllHalfDecided(es: seq<Entry>, tokens: Tokenizer, threshold: real, order: seq<nat>, merged: map<nat, nat>, pos: nat, done: nat)
    requires pos < |order| && InRange(order, |es|)
  {
    forall q | 0 <= q < |order| :: HalfDecided(es, tokens, threshold, order, merged, pos, done, q)
  }

  lemma HalfDecidedEnds(es: seq<Entry>, tokens: Tokenizer, threshold: real, order: seq<nat>, merged: map<nat, nat>, pos: nat)
    requires pos < |order| && InRange(order, |es|)
    ensures AllDecided(es, tokens, threshold, order, merged, pos) ==> AllHalfDecided(es, tokens, threshold, order, merged, pos, pos + 1)
    ensures AllHalfDecided(es, tokens, threshold, order, merged, pos, |order|) ==> AllDecided(es, tokens, threshold, order, merged, pos + 1)
  {
    if AllDecided(es, tokens, threshold, order, merged, pos) {
      forall q: nat, done: nat | q < |order| && done == pos + 1 ensures HalfDecided(es, tokens, threshold, order, merged, pos, done, q) {
        assert Decided(es, tokens, threshold, order, merged, pos, q);
      }
    }
    if AllHalfDecided(es, tokens, threshold, order, merged, pos, |order|) {
      forall q: nat, next: nat | q < |order| && next == pos + 1 ensures Decided(es, tokens, threshold, order, merged, next, q) {
        assert HalfDecided(es, tokens, threshold, order, merged, pos, |order|, q);
      }
    }
  }

  method AbsorbFrom(es: seq<Entry>, tokens: Tokenizer, threshold: real, order: seq<nat>, pos: nat, merged0: map<nat, nat>, losers0: seq<nat>)
      returns (merged: map<nat, nat>, losers: seq<nat>)
    requires Distinct(order) && InRange(order, |es|)
    requires pos < |order| && order[pos] !in merged0
    requires forall i | i in merged0 :: i in order
    requires AllDecided(es, tokens, threshold, order, merged0, pos)
    requires Enumerates(losers0, merged0)
    ensures forall i | i in merged :: i in order
    ensures AllDecided(es, tokens, threshold, order, merged, pos + 1)
    ensures Enumerates(losers, merged)
  {
    merged, losers := merged0, losers0;
    HalfDecidedEnds(es, tokens, threshold, order, merged, pos);
    for k := pos + 1 to |order|
      invariant forall i | i in merged :: i in order
      invariant order[pos] !in merged
      invariant AllHalfDecided(es, tokens, threshold, order, merged, pos, k)
      invariant Enumerates(losers, merged)
    {
      var loser := order[k];
      DecidedStep(es, tokens, threshold, order, merged, pos, k);
      if loser !in merged && Jaccard(tokens(es[order[pos]].content), tokens(es[loser].content)) >= threshold {
        merged, losers := merged[loser := order[pos]], losers + [loser];
      }
    }
    HalfDecidedEnds(es, tokens, threshold, order, merged, pos);
  }

  lemma DecidedStep(es: seq<Entry>, tokens: Tokenizer, threshold: real, order: seq<nat>, before: map<nat, nat>, pos: nat, k: nat)
    requires Distinct(order) && InRange(order, |es|)
    requires pos < k < |order|
    requires order[pos] !in before
    requires AllHalfDecided(es, tokens, threshold, order, before, pos, k)
    ensures var merged := if order[k] !in before && Near(tokens, threshold, es[order[pos]], es[order[k]])
                          then before[order[k] := order[pos]] else before;
            AllHalfDecided(es, tokens, threshold, order, merged, pos, k + 1)
  {
    var merged := if order[k] !in before && Near(tokens, threshold, es[order[pos]], es[order[k]])
                  then before[order[k] := order[pos]] else before;
    forall q: nat, done: nat | q < |order| && done == k + 1 ensures HalfDecided(es, tokens, threshold, order, merged, pos, done, q) {
      assert HalfDecided(es, tokens, threshold, order, before, pos, k, q);
      if q == k {
        if order[k] !in before && Near(tokens, threshold, es[order[pos]], es[order[k]]) {
          assert FirstMatch(es, tokens, threshold, order, merged, pos, q);
        }
      } else if order[q] in before {
        var lim := if q < k then pos + 1 else pos;
        var p :| 0 <= p < lim && p < q && order[p] == before[order[q]] && FirstMatch(es, tokens, threshold, order, before, p, q);
        assert FirstMatch(es, tokens, threshold, order, merged, p, q);
      }
    }
  }

  /** The entries after `k` losers: winners folded so far, losers still as they were. */
  ghost predicate FoldedTo(entries: seq<Entry>, es: seq<Entry>, merged: map<nat, nat>, losers: seq<nat>, k: nat)
    requires k <= |losers| && Enumerates(losers, merged) && MergesInto(es, merged)
  {
    && |entries| == |es|
    && forall i: nat | i < |es| :: entries[i] == if i in merged then es[i] else Folded(es, merged, losers, k, i)
  }

  lemma FoldStep(entries: seq<Entry>, es: seq<Entry>, merged: map<nat, nat>, losers: seq<nat>, k: nat)
    requires k < |losers| && Enumerates(losers, merged) && MergesInto(es, merged)
    requires FoldedTo(entries, es, merged, losers, k)
    ensures losers[k] in merged && losers[k] < |es| && merged[losers[k]] < |es|
    ensures FoldedTo(entries[merged[losers[k]] := Absorb(entries[merged[losers[k]]], entries[losers[k]])], es, merged, losers, k + 1)
  {
    assert losers[k] in losers;
  }

  /** The metadata loop: losers are folded into their winners. */
  method FoldLosers(es: seq<Entry>, merged: map<nat, nat>, losers: seq<nat>) returns (entries: seq<Entry>)
    requires Enumerates(losers, merged) && MergesInto(es, merged)
    ensures FoldedTo(entries, es, merged, losers, |losers|)
  {
    entries := es;
    for k := 0 to |losers|
      invariant FoldedTo(entries, es, merged, losers, k)
    {
      FoldStep(entries, es, merged, losers, k);
      var l, w := losers[k], merged[losers[k]];
      var winner, loser := entries[w], entries[l];
      winner := winner.(hits := winner.hits + loser.hits);
      if loser.created < winner.created { winner := winner.(created := loser.created); }
      if loser.lastUsed > winner.lastUsed { winner := winner.(lastUsed := loser.lastUsed); }
      if loser.confidence > winner.confidence { winner := winner.(confidence := loser.confidence); }
      assert winner == Absorb(entries[w], loser);
      entries := entries[w := winner];
    }
  }

  /** Folds the losers and drops them. */
  method ApplyMerges(es: seq<Entry>, merged: map<nat, nat>, losers: seq<nat>) returns (kept: seq<Entry>)
    requires Enumerates(losers, merged) && MergesInto(es, merged)
    ensures kept == Survivors(es, merged, losers, |es|)
  {
    var entries := FoldLosers(es, merged, losers);
    kept := [];
    for i := 0 to |entries|
      invariant kept == Survivors(es, merged, losers, i)
    {
      if i !in merged {
        kept := kept + [entries[i]];
      }
    }
  }

  lemma {:induction false} NoMergeKeepsAll(es: seq<Entry>, upTo: nat)
    requires upTo <= |es|
    ensures Survivors(es, map[], [], upTo) == es[..upTo]
  {
    if upTo > 0 {
      NoMergeKeepsAll(es, upTo - 1);
      assert es[..upTo] == es[..upTo - 1] + [es[upTo - 1]];
    }
  }

  lemma NothingMerged(losers: seq<nat>, merged: map<nat, nat>)
    requires Enumerates(losers, merged)
    ensures losers == [] <==> merged == map[]
  {
    if losers != [] {
      assert losers[0] in losers;
    }
  }

  lemma MergedPass(es: seq<Entry>, tokens: Tokenizer, threshold: real, merged: map<nat, nat>, losers: seq<nat>)
    requires InRange(PriorityOrder(es), |es|) && GreedyMerge(es, tokens, threshold, PriorityOrder(es), merged)
    requires Enumerates(losers, merged) && MergesInto(es, merged)
    ensures DedupTo(es, tokens, threshold, Survivors(es, merged, losers, |es|))
    ensures merged == map[] ==> Survivors(es, merged, losers, |es|) == es
  {
    assert DedupVia(es, tokens, threshold, merged, losers, Survivors(es, merged, losers, |es|));
    if merged == map[] {
      NothingMerged(losers, merged);
      NoMergeKeepsAll(es, |es|);
      assert es[..|es|] == es;
    }
  }

  lemma TrivialPass(es: seq<Entry>, tokens: Tokenizer, threshold: real)
    requires |es| < 2
    ensures DedupTo(es, tokens, threshold, es)
  {
    PriorityOrderExact(es);
    NoMergeKeepsAll(es, |es|);
    assert es[..|es|] == es;
    var order := PriorityOrder(es);
    assert DedupVia(es, tokens, threshold, map[], [], es);
  }

  /** One locked deduplication pass over the store. */
  method DedupTransaction(store: MemoryStore, tokens: Tokenizer, threshold: real)
    modifies store
    ensures DedupTo(old(store.active), tokens, threshold, store.active)
    ensures store.archive == old(store.archive) && store.trash == old(store.trash)
  {
    var entries := store.active;
    PriorityOrderExact(entries);
    var order := PriorityOrder(entries);
    if |entries| < 2 {
      TrivialPass(entries, tokens, threshold);
      return;
    }
    var merged, losers := FindMerges(entries, tokens, threshold, order);
    MergedPass(entries, tokens, threshold, merged, losers);
    if merged == map[] {
      return;
    }
    store.active := ApplyMerges(entries, merged, losers);
  }
}
