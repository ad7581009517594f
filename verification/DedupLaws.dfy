/** What one deduplication pass guarantees, for every list of entries, tokenizer and threshold. */
module DedupLaws {
  import opened Ordering
  import opened Entries
  import opened Clustering
  import opened Dedup

  // ---- Hits are conserved ----

  /** The hits still held by index `i` after `k` losers have been folded, counting only the indices in `within`. */
  ghost function Weight(es: seq<Entry>, merged: map<nat, nat>, losers: seq<nat>, k: nat, within: nat -> bool, i: nat): int
    requires k <= |losers| && i < |es| && Enumerates(losers, merged) && MergesInto(es, merged)
  {
    if !within(i) || i in losers[..k] then 0
    else if i in merged then es[i].hits
    else Folded(es, merged, losers, k, i).hits
  }

  ghost function Weights(es: seq<Entry>, merged: map<nat, nat>, losers: seq<nat>, k: nat, within: nat -> bool): seq<int>
    requires k <= |losers| && Enumerates(losers, merged) && MergesInto(es, merged)
  {
    seq(|es|, i requires 0 <= i < |es| => Weight(es, merged, losers, k, within, i))
  }

  lemma {:induction false} FoldingConserves(es: seq<Entry>, merged: map<nat, nat>, losers: seq<nat>, k: nat, within: nat -> bool)
    requires k <= |losers| && Enumerates(losers, merged) && MergesInto(es, merged)
    requires forall l | l in merged :: within(l) <==> within(merged[l])
    ensures Sum(Weights(es, merged, losers, k, within)) == Sum(Weights(es, merged, losers, 0, within))
  {
    if k > 0 {
      FoldingConserves(es, merged, losers, k - 1, within);
      assert losers[k - 1] in losers;
      var l := losers[k - 1];
      var w := merged[l];
      var before, after := Weights(es, merged, losers, k - 1, within), Weights(es, merged, losers, k, within);
      assert losers[..k] == losers[..k - 1] + [l];
      assert l !in losers[..k - 1] && w !in losers[..k];
      if within(l) {
        assert after == before[l := 0][w := before[w] + es[l].hits];
        SumUpdate(before, l, 0);
        SumUpdate(before[l := 0], w, before[w] + es[l].hits);
      } else {
        assert after == before;
      }
    }
  }

  function Everyone(): nat -> bool {
    (_: nat) => true
  }

  lemma SurvivorWeight(es: seq<Entry>, merged: map<nat, nat>, losers: seq<nat>, i: nat)
    requires i < |es| && Enumerates(losers, merged) && MergesInto(es, merged)
    ensures TotalHits(SurvivorAs(es, merged, losers, i)) == Weights(es, merged, losers, |losers|, Everyone())[i]
  {
    assert losers[..|losers|] == losers;
    if i !in merged { TotalHitsOne(Folded(es, merged, losers, |losers|, i)); }
  }

  lemma SumOfOne(x: int)
    ensures Sum([x]) == x
  {
    assert [x][1..] == [];
  }

  lemma {:induction false} SurvivorHits(es: seq<Entry>, merged: map<nat, nat>, losers: seq<nat>, upTo: nat)
    requires upTo <= |es| && Enumerates(losers, merged) && MergesInto(es, merged)
    ensures TotalHits(Survivors(es, merged, losers, upTo)) == Sum(Weights(es, merged, losers, |losers|, Everyone())[..upTo])
  {
    if upTo > 0 {
      var i, ws := upTo - 1, Weights(es, merged, losers, |losers|, Everyone());
      SurvivorHits(es, merged, losers, i);
      SurvivorWeight(es, merged, losers, i);
      TotalHitsConcat(Survivors(es, merged, losers, i), SurvivorAs(es, merged, losers, i));
      assert ws[..upTo] == ws[..i] + [ws[i]];
      SumConcat(ws[..i], [ws[i]]);
      SumOfOne(ws[i]);
    }
  }

  lemma StartWeights(es: seq<Entry>, merged: map<nat, nat>, losers: seq<nat>)
    requires Enumerates(losers, merged) && MergesInto(es, merged)
    ensures Weights(es, merged, losers, 0, Everyone()) == HitsOf(es)
  {
    assert losers[..0] == [];
    forall i: nat | i < |es| ensures Weight(es, merged, losers, 0, Everyone(), i) == es[i].hits {
    }
  }

  lemma PassConservesHits(es: seq<Entry>, merged: map<nat, nat>, losers: seq<nat>)
    requires Enumerates(losers, merged) && MergesInto(es, merged)
    ensures TotalHits(Survivors(es, merged, losers, |es|)) == TotalHits(es)
  {
    var ws := Weights(es, merged, losers, |losers|, Everyone());
    SurvivorHits(es, merged, losers, |es|);
    assert ws[..|es|] == ws;
    FoldingConserves(es, merged, losers, |losers|, Everyone());
    StartWeights(es, merged, losers);
  }

  /** No hit is lost or invented by a pass. */
  lemma DedupConservesHits(es: seq<Entry>, tokens: Tokenizer, threshold: real, out: seq<Entry>)
    requires DedupTo(es, tokens, threshold, out)
    ensures TotalHits(out) == TotalHits(es)
  {
    var merged, losers :| DedupVia(es, tokens, threshold, merged, losers, out);
    PassConservesHits(es, merged, losers);
  }

  // ---- Each winner carries its whole class ----

  ghost predicate InClass(merged: map<nat, nat>, w: nat, i: nat) {
    i == w || (i in merged && merged[i] == w)
  }

  ghost function ClassHits(es: seq<Entry>, merged: map<nat, nat>, w: nat): int {
    Sum(seq(|es|, i requires 0 <= i < |es| => if InClass(merged, w, i) then es[i].hits else 0))
  }

  ghost predicate SeenInClass(merged: map<nat, nat>, losers: seq<nat>, k: nat, w: nat, i: nat)
    requires k <= |losers|
  {
    i == w || (i in losers[..k] && i in merged && merged[i] == w)
  }

  /** `f` has the extreme metadata of the entries of class `w` seen among the first `k` losers, and is otherwise entry `w`. */
  ghost predicate Extremes(es: seq<Entry>, merged: map<nat, nat>, losers: seq<nat>, k: nat, w: nat, f: Entry)
    requires k <= |losers| && w < |es| && MergesInto(es, merged)
  {
    && f.(hits := es[w].hits, created := es[w].created, lastUsed := es[w].lastUsed, confidence := es[w].confidence) == es[w]
    && (forall i: nat | i < |es| && SeenInClass(merged, losers, k, w, i) ::
          f.created <= es[i].created && f.lastUsed >= es[i].lastUsed && f.confidence >= es[i].confidence)
    && (exists i: nat :: i < |es| && SeenInClass(merged, losers, k, w, i) && f.created == es[i].created)
    && (exists i: nat :: i < |es| && SeenInClass(merged, losers, k, w, i) && f.lastUsed == es[i].lastUsed)
    && (exists i: nat :: i < |es| && SeenInClass(merged, losers, k, w, i) && f.confidence == es[i].confidence)
  }

  lemma {:induction false} FoldedExtremes(es: seq<Entry>, merged: map<nat, nat>, losers: seq<nat>, k: nat, w: nat)
    requires k <= |losers| && w < |es| && Enumerates(losers, merged) && MergesInto(es, merged) && w !in merged
    ensures Extremes(es, merged, losers, k, w, Folded(es, merged, losers, k, w))
  {
    if k == 0 {
      assert SeenInClass(merged, losers, 0, w, w);
    } else {
      FoldedExtremes(es, merged, losers, k - 1, w);
      assert losers[k - 1] in losers;
      var l := losers[k - 1];
      assert losers[..k] == losers[..k - 1] + [l];
      forall i: nat ensures SeenInClass(merged, losers, k, w, i) <==>
                            SeenInClass(merged, losers, k - 1, w, i) || (i == l && merged[l] == w) {
      }
    }
  }

  /** A winner ends with its class's summed hits, earliest creation, latest use and best confidence, and nothing else changes. */
  lemma WinnerAggregates(es: seq<Entry>, merged: map<nat, nat>, losers: seq<nat>, w: nat)
    requires w < |es| && w !in merged && Enumerates(losers, merged) && MergesInto(es, merged)
    ensures var f := Folded(es, merged, losers, |losers|, w);
            && f.hits == ClassHits(es, merged, w)
            && f.id == es[w].id && f.content == es[w].content && f.entryType == es[w].entryType
            && (forall i: nat | i < |es| && InClass(merged, w, i) ::
                  f.created <= es[i].created && f.lastUsed >= es[i].lastUsed && f.confidence >= es[i].confidence)
            && (exists i: nat :: i < |es| && InClass(merged, w, i) && f.created == es[i].created)
            && (exists i: nat :: i < |es| && InClass(merged, w, i) && f.lastUsed == es[i].lastUsed)
            && (exists i: nat :: i < |es| && InClass(merged, w, i) && f.confidence == es[i].confidence)
  {
    var f := Folded(es, merged, losers, |losers|, w);
    FoldedExtremes(es, merged, losers, |losers|, w);
    assert losers[..|losers|] == losers;
    forall i: nat ensures SeenInClass(merged, losers, |losers|, w, i) <==> InClass(merged, w, i) {
    }
    WinnerHits(es, merged, losers, w);
  }

  lemma WinnerHits(es: seq<Entry>, merged: map<nat, nat>, losers: seq<nat>, w: nat)
    requires w < |es| && w !in merged && Enumerates(losers, merged) && MergesInto(es, merged)
    ensures Folded(es, merged, losers, |losers|, w).hits == ClassHits(es, merged, w)
  {
    var within := (i: nat) => InClass(merged, w, i);
    forall l | l in merged ensures within(l) <==> within(merged[l]) {
    }
    FoldingConserves(es, merged, losers, |losers|, within);
    assert losers[..|losers|] == losers;
    SumOfSingle(Weights(es, merged, losers, |losers|, within), w);
    assert Weights(es, merged, losers, 0, within)
        == seq(|es|, i requires 0 <= i < |es| => if InClass(merged, w, i) then es[i].hits else 0);
  }

  /** The absorbing entry never has lower priority than the absorbed one. */
  lemma WinnersOutrank(es: seq<Entry>, tokens: Tokenizer, threshold: real, merged: map<nat, nat>, losers: seq<nat>, out: seq<Entry>, l: nat)
    requires DedupVia(es, tokens, threshold, merged, losers, out) && l in merged
    ensures merged[l] < |es| && l < |es| && HigherOrEqual(es, merged[l], l)
    ensures Near(tokens, threshold, es[merged[l]], es[l])
    ensures !es[merged[l]].IsCorrection() && !es[l].IsCorrection()
  {
    PriorityOrderExact(es);
    var order := PriorityOrder(es);
    assert l in order;
    var q :| 0 <= q < |order| && order[q] == l;
    assert Decided(es, tokens, threshold, order, merged, |order|, q);
    var p :| 0 <= p < q && order[p] == merged[order[q]] && FirstMatch(es, tokens, threshold, order, merged, p, q);
    assert order[p] in order;
    PriorityOrderSorted(es, p, q);
  }

  // ---- What survives is spread out, so a second pass does nothing ----

  ghost function SurvivorIndices(merged: map<nat, nat>, upTo: nat): seq<nat> {
    if upTo == 0 then [] else SurvivorIndices(merged, upTo - 1) + (if upTo - 1 in merged then [] else [upTo - 1])
  }

  lemma {:induction false} IndexIsKept(merged: map<nat, nat>, upTo: nat, x: nat)
    requires x < |SurvivorIndices(merged, upTo)|
    ensures SurvivorIndices(merged, upTo)[x] < upTo && SurvivorIndices(merged, upTo)[x] !in merged
    decreases upTo
  {
    if x < |SurvivorIndices(merged, upTo - 1)| { IndexIsKept(merged, upTo - 1, x); }
  }

  lemma {:induction false} IndicesAscend(merged: map<nat, nat>, upTo: nat, x: nat, y: nat)
    requires x < y < |SurvivorIndices(merged, upTo)|
    ensures SurvivorIndices(merged, upTo)[x] < SurvivorIndices(merged, upTo)[y]
    decreases upTo
  {
    if y < |SurvivorIndices(merged, upTo - 1)| {
      IndicesAscend(merged, upTo - 1, x, y);
    } else {
      IndexIsKept(merged, upTo - 1, x);
    }
  }

  lemma {:induction false} SurvivorCount(es: seq<Entry>, merged: map<nat, nat>, losers: seq<nat>, upTo: nat)
    requires upTo <= |es| && Enumerates(losers, merged) && MergesInto(es, merged)
    ensures |SurvivorIndices(merged, upTo)| == |Survivors(es, merged, losers, upTo)|
  {
    if upTo > 0 { SurvivorCount(es, merged, losers, upTo - 1); }
  }

  lemma {:induction false} SurvivorAt(es: seq<Entry>, merged: map<nat, nat>, losers: seq<nat>, upTo: nat, x: nat)
    requires upTo <= |es| && Enumerates(losers, merged) && MergesInto(es, merged)
    requires x < |SurvivorIndices(merged, upTo)| && x < |Survivors(es, merged, losers, upTo)|
    ensures SurvivorIndices(merged, upTo)[x] < upTo
    ensures Survivors(es, merged, losers, upTo)[x] == Folded(es, merged, losers, |losers|, SurvivorIndices(merged, upTo)[x])
    decreases upTo
  {
    IndexIsKept(merged, upTo, x);
    SurvivorCount(es, merged, losers, upTo - 1);
    if x < |SurvivorIndices(merged, upTo - 1)| { SurvivorAt(es, merged, losers, upTo - 1, x); }
  }

  lemma SurvivorsByIndex(es: seq<Entry>, merged: map<nat, nat>, losers: seq<nat>, upTo: nat)
    requires upTo <= |es| && Enumerates(losers, merged) && MergesInto(es, merged)
    ensures var idx, out := SurvivorIndices(merged, upTo), Survivors(es, merged, losers, upTo);
            && |idx| == |out|
            && (forall x | 0 <= x < |idx| :: idx[x] < upTo && idx[x] !in merged && out[x] == Folded(es, merged, losers, |losers|, idx[x]))
            && (forall x, y | 0 <= x < y < |idx| :: idx[x] < idx[y])
  {
    var idx, out := SurvivorIndices(merged, upTo), Survivors(es, merged, losers, upTo);
    SurvivorCount(es, merged, losers, upTo);
    forall x | 0 <= x < |idx|
      ensures idx[x] < upTo && idx[x] !in merged && out[x] == Folded(es, merged, losers, |losers|, idx[x])
    {
      IndexIsKept(merged, upTo, x);
      SurvivorAt(es, merged, losers, upTo, x);
    }
    forall x, y | 0 <= x < y < |idx| ensures idx[x] < idx[y] {
      IndicesAscend(merged, upTo, x, y);
    }
  }

  /** No two ordinary entries of the collection are near each other. */
  ghost predicate Spread(ms: multiset<Entry>, tokens: Tokenizer, threshold: real) {
    forall a, b | a in ms && b in ms - multiset{a} && !a.IsCorrection() && !b.IsCorrection() :: !Near(tokens, threshold, a, b)
  }

  lemma TwoPlaces(es: seq<Entry>, x: nat, y: nat)
    requires x < |es| && y < |es| && x != y
    ensures es[x] in multiset(es) && es[y] in multiset(es) - multiset{es[x]}
  {
    assert es == es[..x] + [es[x]] + es[x + 1..];
    assert multiset(es) == multiset(es[..x]) + multiset{es[x]} + multiset(es[x + 1..]);
    if y < x { assert es[y] in es[..x]; } else { assert es[y] in es[x + 1..]; }
  }

  lemma WithoutOne(es: seq<Entry>, x: nat)
    requires x < |es|
    ensures multiset(es[..x] + es[x + 1..]) == multiset(es) - multiset{es[x]}
  {
    assert es == es[..x] + [es[x]] + es[x + 1..];
  }

  lemma PlacesOf(es: seq<Entry>, a: Entry, b: Entry) returns (x: nat, y: nat)
    requires a in multiset(es) && b in multiset(es) - multiset{a}
    ensures x < |es| && y < |es| && x != y && es[x] == a && es[y] == b
  {
    assert a in es;
    x :| 0 <= x < |es| && es[x] == a;
    WithoutOne(es, x);
    var rest := es[..x] + es[x + 1..];
    assert b in multiset(rest);
    var z :| 0 <= z < |rest| && rest[z] == b;
    y := if z < x then z else z + 1;
  }

  lemma KeptPairNotNear(es: seq<Entry>, tokens: Tokenizer, threshold: real, merged: map<nat, nat>, i: nat, j: nat)
    requires InRange(PriorityOrder(es), |es|) && GreedyMerge(es, tokens, threshold, PriorityOrder(es), merged)
    requires i < |es| && j < |es| && i != j && i !in merged && j !in merged
    requires !es[i].IsCorrection() && !es[j].IsCorrection()
    ensures !Near(tokens, threshold, es[i], es[j])
  {
    PriorityOrderExact(es);
    var order := PriorityOrder(es);
    assert i in order && j in order;
    var p :| 0 <= p < |order| && order[p] == i;
    var q :| 0 <= q < |order| && order[q] == j;
    JaccardSymmetric(tokens(es[i].content), tokens(es[j].content));
    if p < q {
      LaterKeptNotNear(es, tokens, threshold, order, merged, p, q);
    } else {
      LaterKeptNotNear(es, tokens, threshold, order, merged, q, p);
    }
  }

  lemma LaterKeptNotNear(es: seq<Entry>, tokens: Tokenizer, threshold: real, order: seq<nat>, merged: map<nat, nat>, p: nat, q: nat)
    requires InRange(order, |es|) && GreedyMerge(es, tokens, threshold, order, merged)
    requires p < q < |order| && order[p] !in merged && order[q] !in merged
    ensures !Near(tokens, threshold, es[order[p]], es[order[q]])
  {
    assert Decided(es, tokens, threshold, order, merged, |order|, q);
  }

  /** Every two kept ordinary entries are below the threshold. */
  lemma DedupSpreads(es: seq<Entry>, tokens: Tokenizer, threshold: real, out: seq<Entry>)
    requires DedupTo(es, tokens, threshold, out)
    ensures Spread(multiset(out), tokens, threshold)
  {
    var merged, losers :| DedupVia(es, tokens, threshold, merged, losers, out);
    var idx := SurvivorIndices(merged, |es|);
    SurvivorsByIndex(es, merged, losers, |es|);
    forall a, b | a in multiset(out) && b in multiset(out) - multiset{a} && !a.IsCorrection() && !b.IsCorrection()
      ensures !Near(tokens, threshold, a, b)
    {
      var x, y := PlacesOf(out, a, b);
      WinnerAggregates(es, merged, losers, idx[x]);
      WinnerAggregates(es, merged, losers, idx[y]);
      KeptPairNotNear(es, tokens, threshold, merged, idx[x], idx[y]);
    }
  }

  /** A pass over a spread-out collection changes nothing, whatever its order. */
  lemma SpreadIsFixed(es: seq<Entry>, tokens: Tokenizer, threshold: real, out: seq<Entry>)
    requires Spread(multiset(es), tokens, threshold) && DedupTo(es, tokens, threshold, out)
    ensures out == es
  {
    var merged, losers :| DedupVia(es, tokens, threshold, merged, losers, out);
    forall i ensures i !in merged {
      if i in merged {
        WinnersOutrank(es, tokens, threshold, merged, losers, out, i);
        TwoPlaces(es, merged[i], i);
        assert false;
      }
    }
    assert merged == map[];
    NothingMerged(losers, merged);
    NoMergeKeepsAll(es, |es|);
    assert es[..|es|] == es;
  }

  /** Deduplication is idempotent, even if the store hands the kept entries back in another order. */
  lemma DedupIdempotent(es: seq<Entry>, tokens: Tokenizer, threshold: real, out: seq<Entry>, reread: seq<Entry>, again: seq<Entry>)
    requires DedupTo(es, tokens, threshold, out)
    requires multiset(reread) == multiset(out) && DedupTo(reread, tokens, threshold, again)
    ensures again == reread
  {
    DedupSpreads(es, tokens, threshold, out);
    SpreadIsFixed(reread, tokens, threshold, again);
  }

  // ---- Corrections ----

  lemma CorrectionStep(es: seq<Entry>, merged: map<nat, nat>, losers: seq<nat>, i: nat)
    requires i < |es| && Enumerates(losers, merged) && MergesInto(es, merged)
    requires forall l | l in merged :: !es[l].IsCorrection() && !es[merged[l]].IsCorrection()
    ensures Corrections(SurvivorAs(es, merged, losers, i)) == Corrections([es[i]])
  {
    if es[i].IsCorrection() {
      NotAWinner(es, merged, losers, |losers|, i);
    } else if i !in merged {
      FoldedExtremes(es, merged, losers, |losers|, i);
    }
  }

  lemma CorrectionsAppend(kept: seq<Entry>, last: seq<Entry>, es: seq<Entry>, i: nat)
    requires i < |es| && Corrections(kept) == Corrections(es[..i]) && Corrections(last) == Corrections([es[i]])
    ensures Corrections(kept + last) == Corrections(es[..i + 1])
  {
    CorrectionsConcat(kept, last);
    CorrectionsConcat(es[..i], [es[i]]);
    assert es[..i + 1] == es[..i] + [es[i]];
  }

  lemma {:induction false} CorrectionsSurvive(es: seq<Entry>, merged: map<nat, nat>, losers: seq<nat>, upTo: nat)
    requires upTo <= |es| && Enumerates(losers, merged) && MergesInto(es, merged)
    requires forall i | i in merged :: !es[i].IsCorrection() && !es[merged[i]].IsCorrection()
    ensures Corrections(Survivors(es, merged, losers, upTo)) == Corrections(es[..upTo])
  {
    if upTo > 0 {
      var i := upTo - 1;
      var kept, last := Survivors(es, merged, losers, i), SurvivorAs(es, merged, losers, i);
      assert Survivors(es, merged, losers, upTo) == kept + last;
      CorrectionsSurvive(es, merged, losers, i);
      CorrectionStep(es, merged, losers, i);
      CorrectionsAppend(kept, last, es, i);
    }
  }

  lemma {:induction false} NotAWinner(es: seq<Entry>, merged: map<nat, nat>, losers: seq<nat>, k: nat, w: nat)
    requires k <= |losers| && w < |es| && Enumerates(losers, merged) && MergesInto(es, merged)
    requires forall i | i in merged :: merged[i] != w
    ensures Folded(es, merged, losers, k, w) == es[w]
  {
    if k > 0 {
      NotAWinner(es, merged, losers, k - 1, w);
      assert losers[k - 1] in losers;
    }
  }

  /** The corrections come out unchanged and in the same order. */
  lemma DedupKeepsCorrections(es: seq<Entry>, tokens: Tokenizer, threshold: real, out: seq<Entry>)
    requires DedupTo(es, tokens, threshold, out)
    ensures Corrections(out) == Corrections(es)
  {
    var merged, losers :| DedupVia(es, tokens, threshold, merged, losers, out);
    var order := PriorityOrder(es);
    PriorityOrderExact(es);
    forall i | i in merged ensures !es[i].IsCorrection() && !es[merged[i]].IsCorrection() {
      assert i in order;
      var q :| 0 <= q < |order| && order[q] == i;
      assert Decided(es, tokens, threshold, order, merged, |order|, q);
      var p :| 0 <= p < q && order[p] == merged[order[q]];
      assert order[p] in order;
    }
    CorrectionsSurvive(es, merged, losers, |es|);
    assert es[..|es|] == es;
  }
}
