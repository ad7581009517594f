/** Who is absorbed by whom in one deduplication pass, in terms of hits, ages, places and similarity alone. */
module DedupRules {
  import opened Ordering
  import opened Entries
  import opened Clustering
  import opened Dedup
  import opened DedupLaws

  lemma ShareOf(n: real, d: real)
    requires 0.0 <= n <= d && 0.0 < d
    ensures 0.0 <= n / d <= 1.0 && n / d * d == n
    ensures n == d ==> n / d == 1.0
    ensures n == 0.0 ==> n / d == 0.0
  {
  }

  /** Similarity is the share of common tokens among all tokens; texts without tokens are similar to nothing. */
  lemma JaccardExact(a: set<string>, b: set<string>)
    ensures Jaccard(a, b) == Jaccard(b, a)
    ensures a != {} && b != {} ==> Jaccard(a, b) * (|a + b| as real) == |a * b| as real
    ensures a == {} || b == {} ==> Jaccard(a, b) == 0.0
    ensures 0.0 <= Jaccard(a, b) <= 1.0
    ensures a != {} ==> Jaccard(a, a) == 1.0
    ensures a !! b ==> Jaccard(a, b) == 0.0
  {
    assert a * b == b * a && a + b == b + a && a * a == a && a + a == a;
    if a != {} {
      CommonAreFew(a, a);
      ShareOf(|a * a| as real, |a + a| as real);
      if b != {} {
        CommonAreFew(a, b);
        ShareOf(|a * b| as real, |a + b| as real);
        assert Jaccard(a, b) == (|a * b| as real) / (|a + b| as real);
      }
    }
  }

  lemma CommonAreFew(a: set<string>, b: set<string>)
    requires a != {} && b != {}
    ensures 0 < |a + b| && |a * b| <= |a + b|
  {
    Fewer(a * b, a + b);
    var x :| x in a;
    assert x in a + b;
  }

  lemma {:induction false} Fewer(a: set<string>, b: set<string>)
    requires a <= b
    ensures |a| <= |b|
    decreases a
  {
    if a != {} {
      var x :| x in a;
      Fewer(a - {x}, b - {x});
    }
  }

  /** More hits come first, then the older entry, then the one that is stored first. */
  predicate Outranks(es: seq<Entry>, i: nat, j: nat)
    requires i < |es| && j < |es|
  {
    || es[i].hits > es[j].hits
    || (es[i].hits == es[j].hits && es[i].created < es[j].created)
    || (es[i].hits == es[j].hits && es[i].created == es[j].created && i < j)
  }

  ghost predicate Ranked(es: seq<Entry>, order: seq<nat>) {
    InRange(order, |es|) && forall p, q | 0 <= p < q < |order| :: Outranks(es, order[p], order[q])
  }

  lemma RankedCons(es: seq<Entry>, x: nat, order: seq<nat>)
    requires x < |es| && Ranked(es, order) && forall y: nat | y in order :: y < |es| && Outranks(es, x, y)
    ensures Ranked(es, [x] + order)
  {
    var all := [x] + order;
    forall p, q | 0 <= p < q < |all| ensures all[p] < |es| && all[q] < |es| && Outranks(es, all[p], all[q]) {
      assert all[q] in order;
    }
  }

  lemma {:induction false} InsertRanks(es: seq<Entry>, x: nat, order: seq<nat>, le: (nat, nat) -> bool)
    requires x < |es| && Ranked(es, order) && (forall y: nat | y in order :: x < y < |es|)
    requires forall i, j :: le(i, j) == HigherOrEqual(es, i, j)
    ensures Ranked(es, Insert(x, order, le)) && forall y: nat | y in Insert(x, order, le) :: y == x || y in order
  {
    if order == [] {
    } else if le(x, order[0]) {
      assert order[0] in order;
      forall y: nat | y in order ensures Outranks(es, x, y) {
        var k :| 0 <= k < |order| && order[k] == y;
        assert k > 0 ==> Outranks(es, order[0], order[k]);
      }
      RankedCons(es, x, order);
    } else {
      var t := order[1..];
      assert forall y: nat | y in t :: y in order;
      InsertRanks(es, x, t, le);
      forall y: nat | y in Insert(x, t, le) ensures y < |es| && Outranks(es, order[0], y) {
        if y == x {
          assert order[0] in order;
        } else {
          var k :| 0 <= k < |t| && t[k] == y;
          assert Outranks(es, order[0], order[k + 1]);
        }
      }
      RankedCons(es, order[0], Insert(x, t, le));
    }
  }

  lemma {:induction false} SortRanks(es: seq<Entry>, indices: seq<nat>, le: (nat, nat) -> bool)
    requires InRange(indices, |es|) && forall x, y | 0 <= x < y < |indices| :: indices[x] < indices[y]
    requires forall i, j :: le(i, j) == HigherOrEqual(es, i, j)
    ensures Ranked(es, SortBy(indices, le))
  {
    if indices != [] {
      SortRanks(es, indices[1..], le);
      SortKeepsItems(indices[1..], le);
      forall y: nat | y in SortBy(indices[1..], le) ensures indices[0] < y < |es| {
        var k :| 0 <= k < |indices[1..]| && indices[1..][k] == y;
        assert indices[k + 1] == y;
      }
      InsertRanks(es, indices[0], SortBy(indices[1..], le), le);
    }
  }

  /** The priority order is the ranking. */
  lemma OrderIsRanking(es: seq<Entry>)
    ensures Ranked(es, PriorityOrder(es))
    ensures forall i: nat :: i in PriorityOrder(es) <==> i < |es| && es[i].entryType != "correction"
  {
    var le := (i: nat, j: nat) => HigherOrEqual(es, i, j);
    SortRanks(es, OrdinaryIndices(es, 0), le);
    SortKeepsItems(OrdinaryIndices(es, 0), le);
  }

  lemma PlaceOf(es: seq<Entry>, i: nat) returns (p: nat)
    requires i < |es| && es[i].entryType != "correction"
    ensures p < |PriorityOrder(es)| && PriorityOrder(es)[p] == i
  {
    OrderIsRanking(es);
    p :| 0 <= p < |PriorityOrder(es)| && PriorityOrder(es)[p] == i;
  }

  predicate Similar(es: seq<Entry>, tokens: Tokenizer, threshold: real, i: nat, j: nat)
    requires i < |es| && j < |es|
  {
    Jaccard(tokens(es[i].content), tokens(es[j].content)) >= threshold
  }

  /** The ordinary entry at `i` survives, outranks the one at `j` and is at least as similar to it as the threshold. */
  ghost predicate CanAbsorb(es: seq<Entry>, tokens: Tokenizer, threshold: real, merged: map<nat, nat>, i: nat, j: nat)
    requires j < |es|
  {
    i < |es| && es[i].entryType != "correction" && i !in merged && Outranks(es, i, j) && Similar(es, tokens, threshold, i, j)
  }

  /** Whoever can absorb the entry at place `q` of the order stands before it. */
  lemma RivalComesFirst(es: seq<Entry>, i: nat, q: nat) returns (p: nat)
    requires i < |es| && es[i].entryType != "correction" && q < |PriorityOrder(es)|
    requires PriorityOrder(es)[q] < |es| && Outranks(es, i, PriorityOrder(es)[q])
    ensures p < q && PriorityOrder(es)[p] == i
  {
    OrderIsRanking(es);
    p := PlaceOf(es, i);
  }

  lemma KeptIfUnrivalled(es: seq<Entry>, tokens: Tokenizer, threshold: real, merged: map<nat, nat>, q: nat, i: nat)
    requires InRange(PriorityOrder(es), |es|) && q < |PriorityOrder(es)| && PriorityOrder(es)[q] !in merged
    requires Decided(es, tokens, threshold, PriorityOrder(es), merged, |PriorityOrder(es)|, q)
    ensures !CanAbsorb(es, tokens, threshold, merged, i, PriorityOrder(es)[q])
  {
    var order := PriorityOrder(es);
    if CanAbsorb(es, tokens, threshold, merged, i, order[q]) {
      var p := RivalComesFirst(es, i, q);
      assert false;
    }
  }

  lemma NoEarlierRival(es: seq<Entry>, tokens: Tokenizer, threshold: real, merged: map<nat, nat>, order: seq<nat>, p: nat, q: nat, r: nat)
    requires InRange(order, |es|) && p < q < |order| && r < q
    requires FirstMatch(es, tokens, threshold, order, merged, p, q)
    requires order[r] !in merged && Similar(es, tokens, threshold, order[r], order[q])
    ensures p <= r
  {
  }

  lemma FirstRivalAbsorbs(es: seq<Entry>, tokens: Tokenizer, threshold: real, merged: map<nat, nat>, p: nat, q: nat)
    requires InRange(PriorityOrder(es), |es|) && p < q < |PriorityOrder(es)|
    requires FirstMatch(es, tokens, threshold, PriorityOrder(es), merged, p, q)
    ensures CanAbsorb(es, tokens, threshold, merged, PriorityOrder(es)[p], PriorityOrder(es)[q])
  {
    OrderIsRanking(es);
    assert PriorityOrder(es)[p] in PriorityOrder(es);
  }

  lemma RivalIsOutranked(es: seq<Entry>, tokens: Tokenizer, threshold: real, merged: map<nat, nat>, order: seq<nat>, p: nat, q: nat, r: nat)
    requires Ranked(es, order) && p < q < |order| && r < q && order[r] != order[p]
    requires FirstMatch(es, tokens, threshold, order, merged, p, q)
    requires order[r] !in merged && Similar(es, tokens, threshold, order[r], order[q])
    ensures Outranks(es, order[p], order[r])
  {
    NoEarlierRival(es, tokens, threshold, merged, order, p, q, r);
  }

  lemma GoesToFirstRival(es: seq<Entry>, tokens: Tokenizer, threshold: real, merged: map<nat, nat>, p: nat, q: nat)
    requires InRange(PriorityOrder(es), |es|) && p < q < |PriorityOrder(es)|
    requires FirstMatch(es, tokens, threshold, PriorityOrder(es), merged, p, q)
    ensures var w, j := PriorityOrder(es)[p], PriorityOrder(es)[q];
            && CanAbsorb(es, tokens, threshold, merged, w, j)
            && forall i: nat | CanAbsorb(es, tokens, threshold, merged, i, j) && i != w :: Outranks(es, w, i)
  {
    var order := PriorityOrder(es);
    FirstRivalAbsorbs(es, tokens, threshold, merged, p, q);
    OrderIsRanking(es);
    forall i: nat | CanAbsorb(es, tokens, threshold, merged, i, order[q]) && i != order[p] ensures Outranks(es, order[p], i) {
      var r := RivalComesFirst(es, i, q);
      RivalIsOutranked(es, tokens, threshold, merged, order, p, q, r);
    }
  }

  /** An ordinary entry goes exactly when some survivor can absorb it, and then into the one that outranks all others. */
  lemma AbsorbedExactly(es: seq<Entry>, tokens: Tokenizer, threshold: real, merged: map<nat, nat>, losers: seq<nat>, out: seq<Entry>, j: nat)
    requires DedupVia(es, tokens, threshold, merged, losers, out) && j < |es| && es[j].entryType != "correction"
    ensures j in merged <==> exists i: nat :: CanAbsorb(es, tokens, threshold, merged, i, j)
    ensures j in merged ==>
              && CanAbsorb(es, tokens, threshold, merged, merged[j], j)
              && forall i: nat | CanAbsorb(es, tokens, threshold, merged, i, j) && i != merged[j] :: Outranks(es, merged[j], i)
  {
    var order := PriorityOrder(es);
    var q := PlaceOf(es, j);
    assert Decided(es, tokens, threshold, order, merged, |order|, q);
    if j in merged {
      var p :| 0 <= p < q && order[p] == merged[j] && FirstMatch(es, tokens, threshold, order, merged, p, q);
      GoesToFirstRival(es, tokens, threshold, merged, p, q);
    } else {
      forall i: nat ensures !CanAbsorb(es, tokens, threshold, merged, i, j) {
        KeptIfUnrivalled(es, tokens, threshold, merged, q, i);
      }
    }
  }

  lemma {:induction false} KeptMembers(merged: map<nat, nat>, upTo: nat)
    ensures forall i: nat :: i in SurvivorIndices(merged, upTo) <==> i < upTo && i !in merged
  {
    if upTo > 0 { KeptMembers(merged, upTo - 1); }
  }

  /** What absorbing never changes. */
  ghost predicate SameButCounts(e: Entry, f: Entry) {
    f == e.(hits := f.hits, created := f.created, lastUsed := f.lastUsed, confidence := f.confidence)
  }

  lemma {:induction false} FoldedKeeps(es: seq<Entry>, merged: map<nat, nat>, losers: seq<nat>, k: nat, w: nat)
    requires k <= |losers| && w < |es| && forall i | i in losers :: i in merged && i < |es|
    ensures SameButCounts(es[w], Folded(es, merged, losers, k, w))
  {
    if k > 0 { FoldedKeeps(es, merged, losers, k - 1, w); }
  }

  /** Corrections never take part; and what is kept stays in its place among the kept, takes the hits of its class, and
      keeps everything but its hits, times and confidence. */
  lemma KeptExactly(es: seq<Entry>, tokens: Tokenizer, threshold: real, merged: map<nat, nat>, losers: seq<nat>, out: seq<Entry>)
    requires DedupVia(es, tokens, threshold, merged, losers, out)
    ensures forall i | i in merged :: i < |es| && es[i].entryType != "correction"
    ensures var kept := SurvivorIndices(merged, |es|);
            && |out| == |kept|
            && (forall x, y | 0 <= x < y < |kept| :: kept[x] < kept[y])
            && (forall i: nat :: i in kept <==> i < |es| && i !in merged)
            && forall x | 0 <= x < |out| ::
                 kept[x] < |es| && SameButCounts(es[kept[x]], out[x]) && out[x].hits == ClassHits(es, merged, kept[x])
  {
    OrderIsRanking(es);
    KeptMembers(merged, |es|);
    SurvivorsByIndex(es, merged, losers, |es|);
    var kept := SurvivorIndices(merged, |es|);
    forall x | 0 <= x < |out|
      ensures kept[x] < |es| && SameButCounts(es[kept[x]], out[x]) && out[x].hits == ClassHits(es, merged, kept[x])
    {
      WinnerAggregates(es, merged, losers, kept[x]);
      FoldedKeeps(es, merged, losers, |losers|, kept[x]);
    }
  }
}
