/** Context-memory records and the three stores the maintainer moves them between. */
module Entries {
  import opened Ordering

  // A stamp is the position of an ISO-8601 text in text order; the store knows how to read it.
  type Stamp = int

  datatype Entry = Entry(
    id: string,
    content: string,
    created: Stamp,
    lastUsed: Stamp,
    hits: int,
    source: string,
    confidence: real,
    topic: string,
    coreStatus: string,
    entryType: string)
  {
    predicate IsCorrection() { entryType == "correction" }
  }

  class MemoryStore {
    var active: seq<Entry>
    var archive: seq<Entry>
    var trash: seq<Entry>

    constructor ()
      ensures active == [] && archive == [] && trash == []
    {
      active, archive, trash := [], [], [];
    }
  }

  function IdsOf(es: seq<Entry>): set<string> {
    set e | e in es :: e.id
  }

  function Sum(ws: seq<int>): int {
    if ws == [] then 0 else ws[0] + Sum(ws[1..])
  }

  function HitsOf(es: seq<Entry>): (ws: seq<int>)
    ensures |ws| == |es| && forall i | 0 <= i < |es| :: ws[i] == es[i].hits
  {
    seq(|es|, i requires 0 <= i < |es| => es[i].hits)
  }

  function TotalHits(es: seq<Entry>): int {
    Sum(HitsOf(es))
  }

  lemma {:induction false} SumConcat(a: seq<int>, b: seq<int>)
    ensures Sum(a + b) == Sum(a) + Sum(b)
  {
    if a == [] {
      assert a + b == b;
    } else {
      assert (a + b)[1..] == a[1..] + b;
      SumConcat(a[1..], b);
    }
  }

  lemma {:induction false} SumUpdate(ws: seq<int>, i: nat, v: int)
    requires i < |ws|
    ensures Sum(ws[i := v]) == Sum(ws) - ws[i] + v
  {
    if i > 0 {
      assert ws[i := v][1..] == ws[1..][i - 1 := v];
      SumUpdate(ws[1..], i - 1, v);
    } else {
      assert ws[0 := v][1..] == ws[1..];
    }
  }

  lemma {:induction false} SumOfZeros(ws: seq<int>)
    requires forall k | 0 <= k < |ws| :: ws[k] == 0
    ensures Sum(ws) == 0
  {
    if ws != [] { SumOfZeros(ws[1..]); }
  }

  lemma {:induction false} SumOfSingle(ws: seq<int>, x: nat)
    requires x < |ws| && forall k | 0 <= k < |ws| && k != x :: ws[k] == 0
    ensures Sum(ws) == ws[x]
  {
    if x == 0 { SumOfZeros(ws[1..]); } else { SumOfSingle(ws[1..], x - 1); }
  }

  lemma TotalHitsOne(e: Entry)
    ensures TotalHits([e]) == e.hits
  {
    assert HitsOf([e]) == [e.hits] && [e.hits][1..] == [];
    assert Sum([e.hits]) == e.hits + Sum([]);
  }

  lemma TotalHitsConcat(a: seq<Entry>, b: seq<Entry>)
    ensures TotalHits(a + b) == TotalHits(a) + TotalHits(b)
  {
    assert HitsOf(a + b) == HitsOf(a) + HitsOf(b);
    SumConcat(HitsOf(a), HitsOf(b));
  }

  function Corrections(es: seq<Entry>): seq<Entry> {
    Filter(es, (e: Entry) => e.IsCorrection())
  }

  function Ordinary(es: seq<Entry>): seq<Entry> {
    Filter(es, (e: Entry) => !e.IsCorrection())
  }

  lemma CorrectionsConcat(a: seq<Entry>, b: seq<Entry>)
    ensures Corrections(a + b) == Corrections(a) + Corrections(b)
  {
    FilterConcat(a, b, (e: Entry) => e.IsCorrection());
  }
}
