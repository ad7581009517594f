/** When the sources picked for a request are as few as can be. */
module SmallestCover {
  import opened Ordering
  import opened Optional
  import opened ContextResources

  lemma {:induction false} SweepSorted(order: seq<Source>, cursor: int, last: int)
    requires SortedBy(order, Before) && cursor <= last && Sweep(order, cursor, last).Some?
    ensures SortedBy(Sweep(order, cursor, last).value, Before)
    decreases |order|
  {
    var range, t := order[0].range, order[1..];
    if range.end < cursor {
      SweepSorted(t, cursor, last);
    } else if range.end + 1 <= last {
      SweepSorted(t, range.end + 1, last);
      SweepChains(t, range.end + 1, last);
      var rest := Sweep(t, range.end + 1, last).value;
      forall s | s in rest ensures Before(order[0], s) {
        var k :| 0 <= k < |t| && t[k] == s;
        assert order[k + 1] == s;
      }
    }
  }

  lemma {:induction false} ChainLinks(picked: seq<Source>, first: int, last: int)
    requires Chain(picked, first, last)
    ensures picked[0].range.start <= first <= picked[0].range.end
    ensures forall k | 0 < k < |picked| :: picked[k].range.start <= picked[k - 1].range.end + 1
    ensures forall k | 0 <= k < |picked| - 1 :: first <= picked[k].range.end < last
    decreases |picked|
  {
    if |picked| > 1 {
      var t := picked[1..];
      ChainLinks(t, picked[0].range.end + 1, last);
      assert forall k | 0 < k < |t| :: picked[k + 1] == t[k] && picked[k] == t[k - 1];
      forall k | 0 < k < |picked| ensures picked[k].range.start <= picked[k - 1].range.end + 1 {
        if k > 1 { assert t[k - 1].range.start <= t[k - 2].range.end + 1; }
      }
      forall k | 0 <= k < |picked| - 1 ensures first <= picked[k].range.end < last {
        if k > 0 { assert t[k - 1].range.end < last; }
      }
    }
  }

  function Without(picked: seq<Source>, k: nat): seq<Source>
    requires k < |picked|
  {
    picked[..k] + picked[k + 1..]
  }

  /** The first line that the picks before this one leave open. */
  function Gap(picked: seq<Source>, first: int, k: nat): int
    requires k < |picked|
  {
    if k == 0 then first else picked[k - 1].range.end + 1
  }

  /** A pick that is not the last is spare when its neighbours meet without it. */
  ghost predicate IsSpare(picked: seq<Source>, first: int, k: nat)
    requires k + 1 < |picked|
  {
    picked[k + 1].range.start <= Gap(picked, first, k)
  }

  /** A picked source could be left out exactly when its two neighbours meet without it. */
  lemma SpareIffNeighboursMeet(order: seq<Source>, d: Descriptor, k: nat)
    requires SortedBy(order, Before) && d.HasContent() && Sweep(order, d.start, d.end).Some?
    requires k < |Sweep(order, d.start, d.end).value|
    ensures var picked := Sweep(order, d.start, d.end).value;
            AllCovered(Without(picked, k), d.start, d.end)
            <==> k + 1 < |picked| && IsSpare(picked, d.start, k)
  {
    var picked := Sweep(order, d.start, d.end).value;
    SweepChains(order, d.start, d.end);
    SweepSorted(order, d.start, d.end);
    ChainCovers(picked, d.start, d.end);
    ChainLinks(picked, d.start, d.end);
    var gap := Gap(picked, d.start, k);
    if k + 1 < |picked| && picked[k + 1].range.start <= gap {
      forall line | d.start <= line <= d.end ensures LineCovered(Without(picked, k), line) {
        SparedLine(picked, k, gap, line, d);
      }
    } else {
      assert d.start <= gap <= d.end;
      GapUncovered(picked, k, gap);
    }
  }

  lemma SparedLine(picked: seq<Source>, k: nat, gap: int, line: int, d: Descriptor)
    requires k + 1 < |picked| && SortedBy(picked, Before) && LineCovered(picked, line) && d.start <= line
    requires gap == Gap(picked, d.start, k)
    requires picked[k + 1].range.start <= gap && picked[k].range.end < picked[k + 1].range.end
    ensures LineCovered(Without(picked, k), line)
  {
    var s :| s in picked && Covers(s, line);
    var j :| 0 <= j < |picked| && picked[j] == s;
    if j == k {
      var other := if line < gap then k - 1 else k + 1;
      assert line < gap ==> Before(picked[k - 1], picked[k]);
      assert Covers(picked[other], line) && picked[other] in Without(picked, k);
    } else {
      assert s in Without(picked, k);
    }
  }

  lemma GapUncovered(picked: seq<Source>, k: nat, gap: int)
    requires k < |picked| && SortedBy(picked, Before)
    requires forall i, j | 0 <= i < j < |picked| :: picked[i].range.end < picked[j].range.end
    requires k > 0 ==> gap == picked[k - 1].range.end + 1
    requires k + 1 < |picked| ==> picked[k + 1].range.start > gap
    ensures !LineCovered(Without(picked, k), gap)
  {
    forall s | s in Without(picked, k) ensures !Covers(s, gap) {
      var j :| 0 <= j < |picked| && j != k && picked[j] == s;
      if j > k + 1 { assert Before(picked[k + 1], picked[j]); }
    }
  }

  // ---- When the selection is smallest ----

  /** The pick at `k` stands at this place, and every candidate before that ends before the line the pick is needed for. */
  ghost predicate PickedAt(order: seq<Source>, picked: seq<Source>, first: int, k: nat, place: nat)
    requires k < |picked|
  {
    && place < |order| && order[place] == picked[k]
    && forall m | 0 <= m < place :: order[m].range.end < Gap(picked, first, k)
  }

  ghost predicate Places(order: seq<Source>, picked: seq<Source>, first: int, at: seq<nat>) {
    |at| == |picked| && forall k | 0 <= k < |at| :: PickedAt(order, picked, first, k, at[k])
  }

  lemma {:induction false} SweepPositions(order: seq<Source>, cursor: int, last: int) returns (at: seq<nat>)
    requires cursor <= last && Sweep(order, cursor, last).Some?
    ensures Places(order, Sweep(order, cursor, last).value, cursor, at)
    decreases |order|
  {
    var range, t := order[0].range, order[1..];
    if range.end < cursor {
      var rest := SweepPositions(t, cursor, last);
      SweepChains(t, cursor, last);
      at := OneFurther(rest);
      PlacesAfterSkip(order, Sweep(t, cursor, last).value, cursor, last, rest);
    } else if range.end + 1 > last {
      at := [0];
    } else {
      var rest := SweepPositions(t, range.end + 1, last);
      SweepChains(t, range.end + 1, last);
      at := [0] + OneFurther(rest);
      PlacesAfterPick(order, Sweep(t, range.end + 1, last).value, cursor, last, rest);
    }
  }

  lemma PlacesAfterSkip(order: seq<Source>, picked: seq<Source>, cursor: int, last: int, rest: seq<nat>)
    requires order != [] && order[0].range.end < cursor && Chain(picked, cursor, last) && Places(order[1..], picked, cursor, rest)
    ensures Places(order, picked, cursor, OneFurther(rest))
  {
    forall k | 0 <= k < |rest| ensures PickedAt(order, picked, cursor, k, rest[k] + 1) {
      GapAfterFirst(picked, cursor, last, k);
      assert PickedAt(order[1..], picked, cursor, k, rest[k]);
      FurtherPlace(order, picked, cursor, k, picked, cursor, k, rest[k]);
    }
  }

  lemma PlacesAfterPick(order: seq<Source>, later: seq<Source>, cursor: int, last: int, rest: seq<nat>)
    requires order != [] && Chain(later, order[0].range.end + 1, last) && Places(order[1..], later, order[0].range.end + 1, rest)
    ensures Places(order, [order[0]] + later, cursor, [0] + OneFurther(rest))
  {
    var picked, at, next := [order[0]] + later, [0] + OneFurther(rest), order[0].range.end + 1;
    forall k | 0 <= k < |at| ensures PickedAt(order, picked, cursor, k, at[k]) {
      if k > 0 {
        GapAfterFirst(later, next, last, k - 1);
        assert PickedAt(order[1..], later, next, k - 1, rest[k - 1]);
        FurtherPlace(order, picked, cursor, k, later, next, k - 1, rest[k - 1]);
      }
    }
  }

  /** The later picks are only needed after the line the first one is needed for. */
  lemma GapAfterFirst(picked: seq<Source>, first: int, last: int, k: nat)
    requires Chain(picked, first, last) && k < |picked|
    ensures Gap(picked, first, k) >= first
  {
    ChainLinks(picked, first, last);
  }

  lemma FurtherPlace(order: seq<Source>, picked: seq<Source>, first: int, k: nat, later: seq<Source>, next: int, j: nat, place: nat)
    requires order != [] && k < |picked| && j < |later| && picked[k] == later[j]
    requires PickedAt(order[1..], later, next, j, place)
    requires Gap(later, next, j) == Gap(picked, first, k) > order[0].range.end
    ensures PickedAt(order, picked, first, k, place + 1)
  {
    forall m | 0 <= m < place + 1 ensures order[m].range.end < Gap(picked, first, k) {
      if m > 0 { assert order[1..][m - 1] == order[m]; }
    }
  }

  function OneFurther(at: seq<nat>): (r: seq<nat>)
    ensures |r| == |at| && forall k | 0 <= k < |r| :: r[k] == at[k] + 1
  {
    seq(|at|, k requires 0 <= k < |at| => at[k] + 1)
  }

  /** The candidate at `i` ends before the request does, though after every earlier candidate, and could be passed over:
      the one at `j` reaches further and starts no later than the line which the earlier candidates leave open. */
  ghost predicate PassesOver(order: seq<Source>, d: Descriptor, i: nat, j: nat)
    requires i < |order| && j < |order|
  {
    && d.start <= order[i].range.end < d.end
    && (forall m | 0 <= m < i :: order[m].range.end < order[i].range.end)
    && order[j].range.end > order[i].range.end
    && (order[j].range.start <= d.start || exists m :: 0 <= m < i && order[j].range.start <= order[m].range.end + 1)
  }

  ghost predicate CanBypass(order: seq<Source>, d: Descriptor) {
    exists i: nat, j: nat | i < |order| && j < |order| :: PassesOver(order, d, i, j)
  }

  ghost predicate HasSpare(picked: seq<Source>, first: int) {
    exists k: nat | k + 1 < |picked| :: IsSpare(picked, first, k)
  }

  /** A pick starts and ends where a chain up to the end of the request needs it to. */
  ghost predicate Fits(picked: seq<Source>, d: Descriptor, k: nat)
    requires k < |picked|
  {
    && d.start <= Gap(picked, d.start, k) <= d.end && Gap(picked, d.start, k) <= picked[k].range.end
    && if k + 1 < |picked| then picked[k].range.end < d.end else picked[k].range.end >= d.end
  }

  lemma PickFits(order: seq<Source>, d: Descriptor, k: nat)
    requires d.HasContent() && Sweep(order, d.start, d.end).Some?
    requires k < |Sweep(order, d.start, d.end).value|
    ensures Fits(Sweep(order, d.start, d.end).value, d, k)
  {
    var picked := Sweep(order, d.start, d.end).value;
    SweepChains(order, d.start, d.end);
    ChainCovers(picked, d.start, d.end);
    ChainLinks(picked, d.start, d.end);
    ChainReaches(picked, d.start, d.end);
  }

  lemma {:induction false} ChainReaches(picked: seq<Source>, first: int, last: int)
    requires Chain(picked, first, last)
    ensures picked[|picked| - 1].range.end >= last
    decreases |picked|
  {
    if |picked| > 1 { ChainReaches(picked[1..], picked[0].range.end + 1, last); }
  }

  /** A candidate that reaches further than one pick starts no earlier than the next. */
  lemma FurtherStartsLater(order: seq<Source>, picked: seq<Source>, first: int, k: nat, place: nat, m: nat)
    requires SortedBy(order, Before) && k + 1 < |picked| && PickedAt(order, picked, first, k + 1, place)
    requires m < |order| && order[m].range.end > picked[k].range.end
    ensures picked[k + 1].range.start <= order[m].range.start
  {
    if m > place { assert Before(order[place], order[m]); }
  }

  lemma BypassAt(order: seq<Source>, d: Descriptor, i: nat, j: nat, m: nat)
    requires i < |order| && j < |order| && d.start <= order[i].range.end < d.end
    requires forall n | 0 <= n < i :: order[n].range.end < order[i].range.end
    requires order[j].range.end > order[i].range.end
    requires order[j].range.start <= d.start || (m < i && order[j].range.start <= order[m].range.end + 1)
    ensures PassesOver(order, d, i, j)
  {
  }

  lemma SpareMeansBypass(order: seq<Source>, d: Descriptor, k: nat)
    requires SortedBy(order, Before) && d.HasContent() && Sweep(order, d.start, d.end).Some?
    requires var picked := Sweep(order, d.start, d.end).value;
             k + 1 < |picked| && IsSpare(picked, d.start, k)
    ensures CanBypass(order, d)
  {
    var picked := Sweep(order, d.start, d.end).value;
    var at := SweepPositions(order, d.start, d.end);
    assert PickedAt(order, picked, d.start, k, at[k]) && PickedAt(order, picked, d.start, k + 1, at[k + 1]);
    PickFits(order, d, k);
    PickFits(order, d, k + 1);
    if k == 0 {
      BypassAt(order, d, at[0], at[1], 0);
    } else {
      assert PickedAt(order, picked, d.start, k - 1, at[k - 1]);
      PickFits(order, d, k - 1);
      assert at[k - 1] < at[k];
      BypassAt(order, d, at[k], at[k + 1], at[k - 1]);
    }
  }

  /** The first pick that reaches this line. */
  lemma FirstReaching(picked: seq<Source>, line: int) returns (k: nat)
    requires picked != [] && picked[|picked| - 1].range.end >= line
    ensures k < |picked| && picked[k].range.end >= line && (k > 0 ==> picked[k - 1].range.end < line)
  {
    k := 0;
    while picked[k].range.end < line
      invariant k < |picked| && (k > 0 ==> picked[k - 1].range.end < line)
      decreases |picked| - k
    {
      k := k + 1;
    }
  }

  lemma BypassMeansSpare(order: seq<Source>, d: Descriptor)
    requires SortedBy(order, Before) && d.HasContent() && Sweep(order, d.start, d.end).Some?
    ensures CanBypass(order, d) ==> HasSpare(Sweep(order, d.start, d.end).value, d.start)
  {
    if CanBypass(order, d) {
      var i: nat, j: nat :| i < |order| && j < |order| && PassesOver(order, d, i, j);
      BypassedIsSpare(order, d, i, j);
    }
  }

  lemma BypassedIsSpare(order: seq<Source>, d: Descriptor, i: nat, j: nat)
    requires SortedBy(order, Before) && d.HasContent() && Sweep(order, d.start, d.end).Some?
    requires i < |order| && j < |order| && PassesOver(order, d, i, j)
    ensures HasSpare(Sweep(order, d.start, d.end).value, d.start)
  {
    var picked := Sweep(order, d.start, d.end).value;
    var at := SweepPositions(order, d.start, d.end);
    SweepChains(order, d.start, d.end);
    PickFits(order, d, |picked| - 1);
    var k := FirstReaching(picked, order[i].range.end);
    PickFits(order, d, k);
    assert PickedAt(order, picked, d.start, k, at[k]);
    assert i == at[k] && k + 1 < |picked|;
    assert PickedAt(order, picked, d.start, k + 1, at[k + 1]);
    FurtherStartsLater(order, picked, d.start, k, at[k + 1], j);
    assert IsSpare(picked, d.start, k);
  }

  /** These sources are candidates and cover the request between them. */
  ghost predicate IsCover(cover: seq<Source>, order: seq<Source>, d: Descriptor) {
    (forall s | s in cover :: s in order) && AllCovered(cover, d.start, d.end)
  }

  ghost predicate IsSmallest(picked: seq<Source>, order: seq<Source>, d: Descriptor) {
    forall cover | IsCover(cover, order, d) :: |cover| >= |picked|
  }

  /** Without a spare pick no candidate covers two of the lines that successive picks were needed for. */
  lemma OneGapEach(order: seq<Source>, d: Descriptor, s: Source, j: nat, k: nat)
    requires SortedBy(order, Before) && d.HasContent() && Sweep(order, d.start, d.end).Some? && s in order
    requires !HasSpare(Sweep(order, d.start, d.end).value, d.start)
    requires j < k < |Sweep(order, d.start, d.end).value|
    ensures var picked := Sweep(order, d.start, d.end).value;
            !(Covers(s, Gap(picked, d.start, j)) && Covers(s, Gap(picked, d.start, k)))
  {
    var picked := Sweep(order, d.start, d.end).value;
    var at := SweepPositions(order, d.start, d.end);
    var m :| 0 <= m < |order| && order[m] == s;
    if Covers(s, Gap(picked, d.start, k)) {
      SweepChains(order, d.start, d.end);
      ChainCovers(picked, d.start, d.end);
      assert picked[j].range.end <= picked[k - 1].range.end;
      assert PickedAt(order, picked, d.start, j + 1, at[j + 1]);
      assert !IsSpare(picked, d.start, j);
      FurtherStartsLater(order, picked, d.start, j, at[j + 1], m);
    }
  }

  lemma NoMoreThan(at: seq<nat>, n: nat)
    requires Distinct(at) && forall k | 0 <= k < |at| :: at[k] < n
    ensures |at| <= n
    decreases n
  {
    if at != [] {
      var k := |at| - 1;
      var rest := seq(k, j requires 0 <= j < k => if at[j] == n - 1 then at[k] else at[j]);
      NoMoreThan(rest, n - 1);
    }
  }

  lemma GapsNeedSources(order: seq<Source>, d: Descriptor, cover: seq<Source>)
    requires SortedBy(order, Before) && d.HasContent() && Sweep(order, d.start, d.end).Some? && IsCover(cover, order, d)
    requires !HasSpare(Sweep(order, d.start, d.end).value, d.start)
    ensures |cover| >= |Sweep(order, d.start, d.end).value|
  {
    var picked := Sweep(order, d.start, d.end).value;
    var hit: seq<nat> := [];
    for k := 0 to |picked|
      invariant |hit| == k
      invariant forall j | 0 <= j < k :: hit[j] < |cover| && Covers(cover[hit[j]], Gap(picked, d.start, j))
    {
      PickFits(order, d, k);
      assert LineCovered(cover, Gap(picked, d.start, k));
      var s :| s in cover && Covers(s, Gap(picked, d.start, k));
      var i :| 0 <= i < |cover| && cover[i] == s;
      hit := hit + [i];
    }
    forall j, k | 0 <= j < k < |hit| ensures hit[j] != hit[k] {
      assert cover[hit[j]] in order;
      OneGapEach(order, d, cover[hit[j]], j, k);
    }
    NoMoreThan(hit, |cover|);
  }

  lemma SpareIsNotSmallest(order: seq<Source>, d: Descriptor, k: nat)
    requires SortedBy(order, Before) && d.HasContent() && Sweep(order, d.start, d.end).Some?
    requires var picked := Sweep(order, d.start, d.end).value;
             k + 1 < |picked| && IsSpare(picked, d.start, k)
    ensures !IsSmallest(Sweep(order, d.start, d.end).value, order, d)
  {
    var picked := Sweep(order, d.start, d.end).value;
    SweepChains(order, d.start, d.end);
    SpareIffNeighboursMeet(order, d, k);
    assert IsCover(Without(picked, k), order, d);
  }

  /** The selection is as small as any set of candidates that covers the request exactly when no candidate can be
      passed over. */
  lemma SmallestIff(order: seq<Source>, d: Descriptor)
    requires SortedBy(order, Before) && d.HasContent() && Sweep(order, d.start, d.end).Some?
    ensures IsSmallest(Sweep(order, d.start, d.end).value, order, d) <==> !CanBypass(order, d)
  {
    var picked := Sweep(order, d.start, d.end).value;
    BypassMeansSpare(order, d);
    if k: nat :| k + 1 < |picked| && IsSpare(picked, d.start, k) {
      SpareMeansBypass(order, d, k);
      SpareIsNotSmallest(order, d, k);
    } else {
      forall cover | IsCover(cover, order, d) ensures |cover| >= |picked| {
        GapsNeedSources(order, d, cover);
      }
    }
  }

  /** Three ranges are picked where two would do. */
  lemma NotASmallestCover()
    ensures var part := (id: string, start: int, end: int) => Source(id, Descriptor("r", "v", start, end), "h");
            var order := [part("a", 1, 3), part("b", 2, 5), part("c", 4, 9)];
            && SortedBy(order, Before)
            && Selected(order, Descriptor("r", "v", 1, 9)) == ["a", "b", "c"]
            && AllCovered([order[0], order[2]], 1, 9)
  {
    var a, b, c := Source("a", Descriptor("r", "v", 1, 3), "h"), Source("b", Descriptor("r", "v", 2, 5), "h"),
                   Source("c", Descriptor("r", "v", 4, 9), "h");
    var d := Descriptor("r", "v", 1, 9);
    assert [a, b, c][1..] == [b, c] && [b, c][1..] == [c];
    assert [c] + [] == [c];
    assert Sweep([c], 6, 9) == Some([c]);
    assert Sweep([b, c], 4, 9) == Some([b] + [c]);
    assert Sweep([a, b, c], 1, 9) == Some([a] + ([b] + [c]));
    assert Ids([a] + ([b] + [c])) == ["a", "b", "c"];
    forall line | 1 <= line <= 9 ensures LineCovered([a, c], line) {
      assert a in [a, c] && c in [a, c];
      assert if line <= 3 then Covers(a, line) else Covers(c, line);
    }
  }
}
