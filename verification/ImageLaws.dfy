/** What a prepared request guarantees about the images it carries. */
module ImageLaws {
  import opened Ordering
  import opened ImageRetention
  import opened Optional

  ghost predicate DistinctIds(refs: seq<Ref>) {
    forall j, k | 0 <= j < k < |refs| :: refs[j].id != refs[k].id
  }

  // ---- Every selected image is shown once and counted once ----

  lemma {:induction false} RenderedAt(blocks: seq<Block>, available: set<string>, seen: set<string>, k: nat)
    requires k < |blocks|
    ensures RenderBlocks(blocks, available, seen)[k] == PieceFor(blocks[k], available, seen + Linked(blocks[..k]))
  {
    var before := blocks[..|blocks| - 1];
    if k < |before| {
      RenderedAt(before, available, seen, k);
      assert before[..k] == blocks[..k];
    }
  }

  lemma {:induction false} RenderConcat(a: seq<Block>, b: seq<Block>, available: set<string>, seen: set<string>)
    ensures RenderBlocks(a + b, available, seen) == RenderBlocks(a, available, seen) + RenderBlocks(b, available, seen + Linked(a))
    decreases |b|
  {
    if b == [] {
      assert a + b == a;
    } else {
      var before := b[..|b| - 1];
      RenderConcat(a, before, available, seen);
      assert (a + b)[..|a + b| - 1] == a + before;
      assert seen + Linked(a + before) == seen + Linked(a) + Linked(before);
    }
  }

  lemma AllPiecesSnoc(sent: seq<Sent>, last: Sent)
    ensures AllPieces(sent + [last]) == AllPieces(sent) + if last.SentPieces? then last.pieces else []
  {
    assert (sent + [last])[..|sent|] == sent;
  }

  /** The messages are rendered as if their blocks formed one list. */
  lemma {:induction false} RenderFlat(messages: seq<Message>, available: set<string>)
    ensures AllPieces(RenderAll(messages, available)) == RenderBlocks(Flat(messages), available, {})
    decreases |messages|
  {
    if messages != [] {
      var before, last := messages[..|messages| - 1], messages[|messages| - 1];
      var earlier := Flat(before);
      var pieces := if last.BlockMessage? then RenderBlocks(last.blocks, available, Linked(earlier)) else [];
      RenderFlat(before, available);
      AllPiecesSnoc(RenderAll(before, available), if last.TextMessage? then SentText(last.text) else SentPieces(pieces));
      assert AllPieces(RenderAll(messages, available)) == RenderBlocks(earlier, available, {}) + pieces;
      var blocks := if last.BlockMessage? then last.blocks else [];
      RenderConcat(earlier, blocks, available, {});
      assert {} + Linked(earlier) == Linked(earlier);
    }
  }

  lemma PixelsWhen(block: Block, available: set<string>, seen: set<string>, id: string)
    ensures PieceFor(block, available, seen) == Pixels(id) <==> block == Reference(id) && id in available && id !in seen
  {
  }

  /** An image stands in the messages exactly where it is first referred to. */
  lemma InlinedAtFirstReference(messages: seq<Message>, available: set<string>, k: nat, id: string)
    requires k < |Flat(messages)|
    ensures var blocks := Flat(messages);
            |AllPieces(RenderAll(messages, available))| == |blocks| &&
            (AllPieces(RenderAll(messages, available))[k] == Pixels(id)
             <==> blocks[k] == Reference(id) && id in available && Reference(id) !in blocks[..k])
  {
    RenderFlat(messages, available);
    RenderedAt(Flat(messages), available, {}, k);
    PixelsWhen(Flat(messages)[k], available, {} + Linked(Flat(messages)[..k]), id);
    assert id in Linked(Flat(messages)[..k]) <==> Reference(id) in Flat(messages)[..k];
  }

  /** How often the pixels of an image occur. */
  ghost function Count(pieces: seq<Piece>, id: string): nat {
    if pieces == [] then 0
    else Count(pieces[..|pieces| - 1], id) + if pieces[|pieces| - 1] == Pixels(id) then 1 else 0
  }

  lemma {:induction false} CountConcat(a: seq<Piece>, b: seq<Piece>, id: string)
    ensures Count(a + b, id) == Count(a, id) + Count(b, id)
    decreases |b|
  {
    if b == [] {
      assert a + b == a;
    } else {
      CountConcat(a, b[..|b| - 1], id);
      assert (a + b)[..|a + b| - 1] == a + b[..|b| - 1];
    }
  }

  lemma CountOne(piece: Piece, id: string)
    ensures Count([piece], id) == if piece == Pixels(id) then 1 else 0
  {
    assert [piece][..0] == [];
  }

  lemma CountLabelled(image: string, id: string)
    ensures Count([Label(image), Pixels(image)], id) == if image == id then 1 else 0
    ensures Count([Pixels(image)], id) == if image == id then 1 else 0
  {
    CountConcat([Label(image)], [Pixels(image)], id);
    assert [Label(image)] + [Pixels(image)] == [Label(image), Pixels(image)];
  }

  lemma {:induction false} RenderCount(blocks: seq<Block>, available: set<string>, id: string)
    ensures Count(RenderBlocks(blocks, available, {}), id) == if id in available && id in Linked(blocks) then 1 else 0
    decreases |blocks|
  {
    if blocks != [] {
      var before, last := blocks[..|blocks| - 1], blocks[|blocks| - 1];
      var seen := {} + Linked(before);
      var piece := PieceFor(last, available, seen);
      RenderCount(before, available, id);
      CountConcat(RenderBlocks(before, available, {}), [piece], id);
      CountOne(piece, id);
      PixelsWhen(last, available, seen, id);
      LinkedSnoc(before, last);
      assert before + [last] == blocks;
    }
  }

  lemma {:induction false} LooseCount(hydrated: seq<Ref>, linked: set<string>, id: string)
    requires DistinctIds(hydrated)
    ensures Count(Loose(hydrated, linked), id) == if id in IdsOf(hydrated) && id !in linked then 1 else 0
    decreases |hydrated|
  {
    if hydrated != [] {
      var before, last := hydrated[..|hydrated| - 1], hydrated[|hydrated| - 1];
      var pieces := if last.id in linked then [] else [Label(last.id), Pixels(last.id)];
      LooseCount(before, linked, id);
      CountConcat(Loose(before, linked), pieces, id);
      assert before + [last] == hydrated;
      IdsSnoc(before, last);
      CountLabelled(last.id, id);
    }
  }

  lemma {:induction false} InlinedCount(hydrated: seq<Ref>, linked: set<string>, id: string)
    requires DistinctIds(hydrated)
    ensures Count(Inlined(hydrated, linked), id) == if id in IdsOf(hydrated) && id in linked then 1 else 0
    decreases |hydrated|
  {
    if hydrated != [] {
      var before, last := hydrated[..|hydrated| - 1], hydrated[|hydrated| - 1];
      var pieces := if last.id in linked then [Pixels(last.id)] else [];
      InlinedCount(before, linked, id);
      CountConcat(Inlined(before, linked), pieces, id);
      assert before + [last] == hydrated;
      IdsSnoc(before, last);
      CountLabelled(last.id, id);
    }
  }

  lemma IdsSnoc(before: seq<Ref>, last: Ref)
    ensures IdsOf(before + [last]) == IdsOf(before) + {last.id}
    ensures DistinctIds(before + [last]) ==> last.id !in IdsOf(before)
  {
    var all := before + [last];
    assert all[|before|] == last;
    forall r | r in before ensures r in all {
      var k :| 0 <= k < |before| && before[k] == r;
      assert all[k] == r;
    }
    if DistinctIds(all) {
      forall r | r in before ensures r.id != last.id {
        var k :| 0 <= k < |before| && before[k] == r;
        assert all[k].id != all[|before|].id;
      }
    }
  }

  /** Every selected image appears exactly once in the request and once in the token count, and no other image does. */
  lemma ShownAndCountedOnce(messages: seq<Message>, notices: map<string, string>, hydrated: seq<Ref>, id: string)
    requires DistinctIds(hydrated)
    ensures Count(AllPieces(Provider(messages, notices, hydrated)), id) == if id in IdsOf(hydrated) then 1 else 0
    ensures Count(Accounted(messages, notices, hydrated), id) == if id in IdsOf(hydrated) then 1 else 0
  {
    var linked := Linked(Flat(messages));
    OverlayCount(notices, hydrated, linked, id);
    InlinedCount(hydrated, linked, id);
    CountConcat(Overlay(notices, hydrated, linked), Inlined(hydrated, linked), id);
    ProviderPieces(messages, notices, hydrated);
    RenderCount(Flat(messages), IdsOf(hydrated), id);
    CountConcat(RenderBlocks(Flat(messages), IdsOf(hydrated), {}), Overlay(notices, hydrated, linked), id);
  }

  lemma OverlayCount(notices: map<string, string>, hydrated: seq<Ref>, linked: set<string>, id: string)
    requires DistinctIds(hydrated)
    ensures Count(Overlay(notices, hydrated, linked), id) == if id in IdsOf(hydrated) && id !in linked then 1 else 0
  {
    var head := if notices == map[] then [] else [NoticeText(notices.Keys)];
    LooseCount(hydrated, linked, id);
    CountConcat(head, Loose(hydrated, linked), id);
    assert Count(head, id) == 0;
  }

  lemma ProviderPieces(messages: seq<Message>, notices: map<string, string>, hydrated: seq<Ref>)
    ensures AllPieces(Provider(messages, notices, hydrated)) ==
            RenderBlocks(Flat(messages), IdsOf(hydrated), {}) + Overlay(notices, hydrated, Linked(Flat(messages)))
  {
    var rendered := RenderAll(messages, IdsOf(hydrated));
    var overlay := Overlay(notices, hydrated, Linked(Flat(messages)));
    RenderFlat(messages, IdsOf(hydrated));
    if overlay == [] {
      assert rendered + [] == rendered;
    } else {
      AllPiecesSnoc(rendered, SentPieces(overlay));
    }
  }

  // ---- What is kept ----

  lemma {:induction false} ExcessFits(refs: seq<Ref>, budget: nat)
    ensures Bytes(refs[Excess(refs, budget)..]) <= budget
    ensures forall j | 0 <= j < Excess(refs, budget) :: Bytes(refs[j..]) > budget
  {
    assert refs[0..] == refs;
    if refs != [] && Bytes(refs) > budget {
      var t := refs[1..];
      ExcessFits(t, budget);
      assert refs[Excess(refs, budget)..] == t[Excess(t, budget)..];
      forall j | 0 <= j < Excess(refs, budget) ensures Bytes(refs[j..]) > budget {
        if j > 0 { assert refs[j..] == t[j - 1..]; }
      }
    }
  }

  lemma {:induction false} SuffixFits(refs: seq<Ref>, k: nat)
    requires k <= |refs|
    ensures Bytes(refs[k..]) <= Bytes(refs)
  {
    if k == 0 {
      assert refs[0..] == refs;
    } else {
      SuffixFits(refs[1..], k - 1);
      assert refs[k..] == refs[1..][k - 1..];
    }
  }

  lemma {:induction false} LoadedConcat(a: seq<Ref>, b: seq<Ref>, load: string -> Option<nat>)
    ensures Loaded(a + b, load) == Loaded(a, load) + Loaded(b, load)
    decreases |b|
  {
    if b == [] {
      assert a + b == a;
    } else {
      LoadedConcat(a, b[..|b| - 1], load);
      assert (a + b)[..|a + b| - 1] == a + b[..|b| - 1];
    }
  }

  /** Fitting only removes the oldest images; it stops at the first acceptable request. */
  lemma {:induction false} FittedIsSuffix(d: Draft, req: Request) returns (k: nat)
    ensures k <= |d.hydrated| && Fitted(d, req).hydrated == d.hydrated[k..]
    ensures Refused(Fitted(d, req), req) ==> Fitted(d, req).hydrated == []
    ensures !Refused(d, req) ==> k == 0
    decreases |d.hydrated|
  {
    if !Refused(d, req) || d.hydrated == [] {
      k := 0;
      assert d.hydrated[0..] == d.hydrated;
    } else {
      var next := WithoutOldest(d, req.purpose);
      var j := FittedIsSuffix(next, req);
      k := j + 1;
      assert d.hydrated[k..] == next.hydrated[j..];
    }
  }

  /** The selection is the youngest part of the readable images still in their rounds, oldest first: no image is
      kept while a younger one is dropped, and together they stay within the byte budget. */
  lemma KeepsYoungestWithinBudget(c: Context, limits: Limits, req: Request) returns (k: nat)
    ensures var all := Loaded(InRound(c, limits), req.load);
            && k <= |all|
            && Final(c, limits, req).hydrated == (if req.support == Some(true) then all[k..] else [])
    ensures Prepare(c, limits, req).1.encodedBytes <= limits.maxBytes
    ensures Prepare(c, limits, req).1.blocked ==> Prepare(c, limits, req).1.selected == []
  {
    var order := InRound(c, limits);
    var w := Budgeted(AgedOut(c, limits), order, limits.maxBytes);
    var n := Excess(order, limits.maxBytes);
    if req.support == Some(true) {
      k := WithVision(w, order, n, limits, req);
    } else {
      k := 0;
    }
    var j := FittedIsSuffix(Hydrated(w, order[n..], limits, req), req);
  }

  lemma WithVision(w: Work, order: seq<Ref>, n: nat, limits: Limits, req: Request) returns (k: nat)
    requires req.support == Some(true) && n <= |order|
    ensures var all := Loaded(order, req.load);
            && k <= |all| && Bytes(all[k..]) <= limits.maxBytes
            && Fitted(Hydrated(w, order[n..], limits, req), req).hydrated == all[k..]
  {
    var all := Loaded(order, req.load);
    var i := LateSuffix(order, n, limits.maxBytes, req.load);
    var j := FittedIsSuffix(Hydrated(w, order[n..], limits, req), req);
    k := i + j;
    assert all[k..] == all[i..][j..];
    SuffixFits(all[i..], j);
  }

  /** Dropping the oldest candidates before loading, and again by actual size after it, leaves a suffix of what loads. */
  lemma LateSuffix(order: seq<Ref>, n: nat, budget: nat, load: string -> Option<nat>) returns (k: nat)
    requires n <= |order|
    ensures var all, late := Loaded(order, load), Loaded(order[n..], load);
            k <= |all| && late[Excess(late, budget)..] == all[k..] && Bytes(all[k..]) <= budget
  {
    var all, late := Loaded(order, load), Loaded(order[n..], load);
    assert order == order[..n] + order[n..];
    LoadedConcat(order[..n], order[n..], load);
    ExcessFits(late, budget);
    k := |all| - |late| + Excess(late, budget);
  }

  /** When all files are readable, the recorded sizes are right and the provider does not object, nothing is dropped
      that would still fit. */
  lemma DropsNoMoreThanNeeded(c: Context, limits: Limits, req: Request)
    requires req.support == Some(true)
    requires forall r | r in InRound(c, limits) :: req.load(r.id) == Some(r.bytes)
    requires forall sent :: req.preflight(sent) != Some(false)
    ensures Final(c, limits, req).hydrated == InRound(c, limits)[Excess(InRound(c, limits), limits.maxBytes)..]
  {
    var order := InRound(c, limits);
    var kept := order[Excess(order, limits.maxBytes)..];
    LoadedSame(kept, req.load);
    ExcessFits(order, limits.maxBytes);
    assert kept[0..] == kept;
  }

  lemma {:induction false} LoadedSame(refs: seq<Ref>, load: string -> Option<nat>)
    requires forall r | r in refs :: load(r.id) == Some(r.bytes)
    ensures Loaded(refs, load) == refs
    decreases |refs|
  {
    if refs != [] {
      LoadedSame(refs[..|refs| - 1], load);
      assert refs == refs[..|refs| - 1] + [refs[|refs| - 1]];
    }
  }

  /** The candidates are ordered by the round that introduced them, and images of one round stay in history order. */
  lemma InRoundIsAgeOrdered(c: Context, limits: Limits, round: int)
    ensures SortedBy(InRound(c, limits), ByRound(c.round + 1))
    ensures Filter(InRound(c, limits), CreatedIn(round, c.round + 1)) ==
            Filter(Recent(c, limits), CreatedIn(round, c.round + 1))
  {
    SortedByAge(Recent(c, limits), round, c.round + 1);
  }

  lemma SortedByAge(refs: seq<Ref>, round: int, now: int)
    ensures SortedBy(SortBy(refs, ByRound(now)), ByRound(now))
    ensures Filter(SortBy(refs, ByRound(now)), CreatedIn(round, now)) == Filter(refs, CreatedIn(round, now))
  {
    assert TotalPreorder(ByRound(now));
    SortSorts(refs, ByRound(now));
    SortStable(refs, ByRound(now), CreatedIn(round, now));
  }

  function CreatedIn(round: int, now: int): Ref -> bool {
    (r: Ref) => CreatedAt(r, now) == round
  }

  // ---- What is retired ----

  ghost function Gone(images: seq<Ref>): set<string> {
    set r | r in images && r.evicted :: r.id
  }

  lemma RetireGone(images: seq<Ref>, id: string, reason: string)
    requires id in IdsOf(images)
    ensures Gone(Retire(images, id, reason)) == Gone(images) + {id}
    ensures IdsOf(Retire(images, id, reason)) == IdsOf(images)
  {
    var after := Retire(images, id, reason);
    forall k | 0 <= k < |images| ensures after[k] in after && images[k] in images && after[k] == Retired(images[k], id, reason) {
    }
    forall x ensures x in Gone(after) <==> x in Gone(images) + {id} {
      if x in Gone(after) {
        var r :| r in after && r.evicted && r.id == x;
        var k :| 0 <= k < |after| && after[k] == r;
        assert images[k] in images;
      }
      if x in Gone(images) + {id} {
        var r :| r in images && r.id == x && (x == id || r.evicted);
        var k :| 0 <= k < |images| && images[k] == r;
        assert after[k] in after;
      }
    }
    SameIds(images, after);
  }

  lemma SameIds(a: seq<Ref>, b: seq<Ref>)
    requires |a| == |b| && forall k | 0 <= k < |a| :: a[k].id == b[k].id
    ensures IdsOf(a) == IdsOf(b)
  {
    forall x ensures x in IdsOf(a) <==> x in IdsOf(b) {
      if x in IdsOf(a) {
        var r :| r in a && r.id == x;
        var k :| 0 <= k < |a| && a[k] == r;
        assert b[k] in b;
      }
      if x in IdsOf(b) {
        var r :| r in b && r.id == x;
        var k :| 0 <= k < |b| && b[k] == r;
        assert a[k] in a;
      }
    }
  }

  lemma ResizeGone(images: seq<Ref>, id: string, bytes: nat)
    ensures Gone(Resize(images, id, bytes)) == Gone(images)
    ensures IdsOf(Resize(images, id, bytes)) == IdsOf(images)
  {
    var after := Resize(images, id, bytes);
    SameIds(images, after);
    forall x ensures x in Gone(after) <==> x in Gone(images) {
      if x in Gone(after) {
        var r :| r in after && r.evicted && r.id == x;
        var k :| 0 <= k < |after| && after[k] == r;
        assert images[k] in images;
      }
      if x in Gone(images) {
        var r :| r in images && r.evicted && r.id == x;
        var k :| 0 <= k < |images| && images[k] == r;
        assert after[k] in after;
      }
    }
  }

  lemma {:induction false} EvictAllGone(w: Work, refs: seq<Ref>, reason: string)
    requires IdsOf(refs) <= IdsOf(w.images)
    ensures var w' := EvictAll(w, refs, reason);
            IdsOf(w'.images) == IdsOf(w.images) && Gone(w'.images) == Gone(w.images) + IdsOf(refs)
    decreases |refs|
  {
    if refs != [] {
      var before, last := refs[..|refs| - 1], refs[|refs| - 1];
      assert before + [last] == refs;
      IdsSnoc(before, last);
      EvictAllGone(w, before, reason);
      RetireGone(EvictAll(w, before, reason).images, last.id, reason);
    }
  }

  lemma {:induction false} LoadedIds(refs: seq<Ref>, load: string -> Option<nat>)
    ensures forall id :: id in IdsOf(Loaded(refs, load)) <==> id in IdsOf(refs) && load(id).Some?
    decreases |refs|
  {
    if refs != [] {
      var before, last := refs[..|refs| - 1], refs[|refs| - 1];
      assert before + [last] == refs;
      IdsSnoc(before, last);
      LoadedIds(before, load);
      if load(last.id).Some? {
        IdsSnoc(Loaded(before, load), last.(bytes := load(last.id).value));
      } else {
        assert Loaded(refs, load) == Loaded(before, load);
      }
    }
  }

  lemma {:induction false} LoadAllGone(w: Work, refs: seq<Ref>, load: string -> Option<nat>)
    requires IdsOf(refs) <= IdsOf(w.images)
    ensures var w' := LoadAll(w, refs, load);
            && IdsOf(w'.images) == IdsOf(w.images)
            && forall id :: id in Gone(w'.images) <==> id in Gone(w.images) || (id in IdsOf(refs) && load(id).None?)
    decreases |refs|
  {
    if refs != [] {
      var before, last := refs[..|refs| - 1], refs[|refs| - 1];
      assert before + [last] == refs;
      IdsSnoc(before, last);
      LoadAllGone(w, before, load);
      LoadOneGone(LoadAll(w, before, load), last, load);
    }
  }

  lemma LoadOneGone(w: Work, r: Ref, load: string -> Option<nat>)
    requires r.id in IdsOf(w.images)
    ensures IdsOf(LoadOne(w, r, load).images) == IdsOf(w.images)
    ensures Gone(LoadOne(w, r, load).images) == Gone(w.images) + if load(r.id).None? then {r.id} else {}
  {
    if load(r.id).Some? {
      ResizeGone(w.images, r.id, load(r.id).value);
    } else {
      RetireGone(w.images, r.id, "missing_or_corrupt_file");
    }
  }

  lemma IdsSplit(refs: seq<Ref>, k: nat)
    requires k <= |refs|
    ensures IdsOf(refs) == IdsOf(refs[..k]) + IdsOf(refs[k..])
    ensures DistinctIds(refs) ==> IdsOf(refs[..k]) !! IdsOf(refs[k..]) && DistinctIds(refs[k..])
  {
    assert refs == refs[..k] + refs[k..];
    forall r | r in refs ensures r in refs[..k] || r in refs[k..] {
    }
    if DistinctIds(refs) {
      forall x, y | x in refs[..k] && y in refs[k..] ensures x.id != y.id {
        var i :| 0 <= i < k && refs[..k][i] == x;
        var j :| 0 <= j < |refs| - k && refs[k..][j] == y;
        assert refs[i].id != refs[k + j].id;
      }
    }
  }

  // ---- Every image keeps its own id through filtering, sorting and loading ----

  lemma DistinctCons(first: Ref, rest: seq<Ref>)
    ensures DistinctIds([first] + rest) <==> first.id !in IdsOf(rest) && DistinctIds(rest)
  {
    var all := [first] + rest;
    if DistinctIds(all) {
      forall r | r in rest ensures r.id != first.id {
        var k :| 0 <= k < |rest| && rest[k] == r;
        assert all[0].id != all[k + 1].id;
      }
      forall j, k | 0 <= j < k < |rest| ensures rest[j].id != rest[k].id {
        assert all[j + 1].id != all[k + 1].id;
      }
    }
    if first.id !in IdsOf(rest) && DistinctIds(rest) {
      forall j, k | 0 <= j < k < |all| ensures all[j].id != all[k].id {
        assert rest[k - 1] in rest;
      }
    }
  }

  lemma {:induction false} FilterDistinct(refs: seq<Ref>, p: Ref -> bool)
    requires DistinctIds(refs)
    ensures DistinctIds(Filter(refs, p)) && DistinctIds(Reject(refs, p))
  {
    if refs != [] {
      var first, t := refs[0], refs[1..];
      assert refs == [first] + t;
      DistinctCons(first, t);
      FilterDistinct(t, p);
      DistinctCons(first, Filter(t, p));
      DistinctCons(first, Reject(t, p));
    }
  }

  lemma {:induction false} InsertDistinct(r: Ref, refs: seq<Ref>, le: (Ref, Ref) -> bool)
    requires DistinctIds(refs) && r.id !in IdsOf(refs)
    ensures DistinctIds(Insert(r, refs, le)) && IdsOf(Insert(r, refs, le)) == IdsOf(refs) + {r.id}
  {
    IdsCons(r, refs);
    DistinctCons(r, refs);
    if refs != [] && !le(r, refs[0]) {
      var first, t := refs[0], refs[1..];
      assert refs == [first] + t;
      DistinctCons(first, t);
      IdsCons(first, t);
      InsertDistinct(r, t, le);
      DistinctCons(first, Insert(r, t, le));
      IdsCons(first, Insert(r, t, le));
    }
  }

  lemma IdsCons(first: Ref, rest: seq<Ref>)
    ensures IdsOf([first] + rest) == {first.id} + IdsOf(rest)
  {
    assert ([first] + rest)[0] == first;
    assert forall r :: r in [first] + rest <==> r == first || r in rest;
  }

  lemma {:induction false} SortDistinct(refs: seq<Ref>, le: (Ref, Ref) -> bool)
    requires DistinctIds(refs)
    ensures DistinctIds(SortBy(refs, le)) && IdsOf(SortBy(refs, le)) == IdsOf(refs)
  {
    if refs != [] {
      var first, t := refs[0], refs[1..];
      assert refs == [first] + t;
      DistinctCons(first, t);
      IdsCons(first, t);
      SortDistinct(t, le);
      InsertDistinct(first, SortBy(t, le), le);
    }
  }

  lemma {:induction false} LoadedDistinct(refs: seq<Ref>, load: string -> Option<nat>)
    requires DistinctIds(refs)
    ensures DistinctIds(Loaded(refs, load))
    decreases |refs|
  {
    if refs != [] {
      var before, last := refs[..|refs| - 1], refs[|refs| - 1];
      assert before + [last] == refs;
      LoadedDistinct(before, load);
      LoadedIds(before, load);
      IdsSnoc(before, last);
      if load(last.id).Some? {
        DistinctSnoc(Loaded(before, load), last.(bytes := load(last.id).value));
      } else {
        assert Loaded(refs, load) == Loaded(before, load);
      }
    }
  }

  lemma DistinctSnoc(before: seq<Ref>, last: Ref)
    requires DistinctIds(before) && last.id !in IdsOf(before)
    ensures DistinctIds(before + [last])
  {
    forall j, k | 0 <= j < k < |before + [last]| ensures (before + [last])[j].id != (before + [last])[k].id {
      assert before[j] in before;
    }
  }

  // ---- Each step of preparing retires exactly what it drops ----

  /** From `before` to `after` exactly the images of `all` that are not in `kept` were retired. */
  ghost predicate RetiresTheRest(before: Work, after: Work, all: seq<Ref>, kept: seq<Ref>) {
    && IdsOf(after.images) == IdsOf(before.images)
    && Gone(after.images) == Gone(before.images) + (IdsOf(all) - IdsOf(kept))
    && IdsOf(kept) <= IdsOf(all)
    && DistinctIds(kept)
  }

  lemma BudgetRetires(w: Work, refs: seq<Ref>, budget: nat)
    requires DistinctIds(refs) && IdsOf(refs) <= IdsOf(w.images)
    ensures RetiresTheRest(w, Budgeted(w, refs, budget), refs, refs[Excess(refs, budget)..])
  {
    var n := Excess(refs, budget);
    IdsSplit(refs, n);
    EvictAllGone(w, refs[..n], "encoded_byte_budget");
  }

  lemma HydrationRetires(w: Work, refs: seq<Ref>, limits: Limits, req: Request)
    requires req.purpose == Main || req.support == Some(true)
    requires DistinctIds(refs) && IdsOf(refs) <= IdsOf(w.images)
    ensures var d := Hydrated(w, refs, limits, req); RetiresTheRest(w, d.work, refs, d.hydrated)
  {
    if req.support != Some(true) {
      EvictAllGone(w, refs, Unsupported(req.support));
      assert IdsOf([]) == {};
    } else {
      var loaded := Loaded(refs, req.load);
      LoadedDistinct(refs, req.load);
      LoadedIds(refs, req.load);
      LoadAllGone(w, refs, req.load);
      BudgetRetires(LoadAll(w, refs, req.load), loaded, limits.maxBytes);
    }
  }

  lemma {:induction false} FittingRetires(d: Draft, req: Request)
    requires req.purpose == Main && DistinctIds(d.hydrated) && IdsOf(d.hydrated) <= IdsOf(d.work.images)
    ensures var d' := Fitted(d, req); RetiresTheRest(d.work, d'.work, d.hydrated, d'.hydrated)
    decreases |d.hydrated|
  {
    if Refused(d, req) && d.hydrated != [] {
      var first, t := d.hydrated[0], d.hydrated[1..];
      assert d.hydrated == [first] + t;
      DistinctCons(first, t);
      IdsCons(first, t);
      RetireGone(d.work.images, first.id, "provider_body_limit");
      FittingRetires(WithoutOldest(d, Main), req);
    }
  }

  lemma LiveIds(c: Context, limits: Limits)
    requires DistinctIds(c.images)
    ensures var stale := Stale(c, limits);
            && IdsOf(stale) == IdsOf(Live(c.images)) - IdsOf(InRound(c, limits))
            && IdsOf(InRound(c, limits)) <= IdsOf(Live(c.images)) && IdsOf(stale) <= IdsOf(c.images)
    ensures DistinctIds(InRound(c, limits)) && IdsOf(Live(c.images)) <= IdsOf(c.images)
  {
    var live, p := Live(c.images), TooOld(c.round + 1, limits.keepRounds);
    FilterDistinct(c.images, IsLive());
    FilterDistinct(live, p);
    SortDistinct(Recent(c, limits), ByRound(c.round + 1));
    SplitDistinct(live, p);
    FilterIds(c.images, IsLive());
    assert IdsOf(Stale(c, limits)) == IdsOf(Filter(live, p)) && IdsOf(InRound(c, limits)) == IdsOf(Reject(live, p));
  }

  lemma FilterIds(refs: seq<Ref>, p: Ref -> bool)
    ensures IdsOf(Filter(refs, p)) <= IdsOf(refs)
  {
  }

  lemma SplitDistinct(refs: seq<Ref>, p: Ref -> bool)
    requires DistinctIds(refs)
    ensures IdsOf(Reject(refs, p)) <= IdsOf(refs)
    ensures IdsOf(Filter(refs, p)) == IdsOf(refs) - IdsOf(Reject(refs, p))
  {
    forall x, y | x in Filter(refs, p) && y in Reject(refs, p) ensures x.id != y.id {
      var i :| 0 <= i < |refs| && refs[i] == x;
      var j :| 0 <= j < |refs| && refs[j] == y;
      assert i != j;
    }
  }

  function Start(c: Context): Work {
    Work(c.images, c.notices, [])
  }

  lemma EvictingRetires(w: Work, all: seq<Ref>, dropped: seq<Ref>, kept: seq<Ref>, reason: string)
    requires IdsOf(all) <= IdsOf(w.images) && IdsOf(kept) <= IdsOf(all) && DistinctIds(kept)
    requires IdsOf(dropped) == IdsOf(all) - IdsOf(kept)
    ensures RetiresTheRest(w, EvictAll(w, dropped, reason), all, kept)
  {
    EvictAllGone(w, dropped, reason);
  }

  lemma AgingRetires(c: Context, limits: Limits)
    requires DistinctIds(c.images)
    ensures RetiresTheRest(Start(c), AgedOut(c, limits), Live(c.images), InRound(c, limits))
  {
    LiveIds(c, limits);
    EvictingRetires(Start(c), Live(c.images), Stale(c, limits), InRound(c, limits), "round_limit");
  }

  lemma RetiringComposes(w: Work, w': Work, w'': Work, a: seq<Ref>, b: seq<Ref>, c: seq<Ref>)
    requires RetiresTheRest(w, w', a, b) && RetiresTheRest(w', w'', b, c)
    ensures RetiresTheRest(w, w'', a, c)
  {
  }

  lemma FinalRetires(c: Context, limits: Limits, req: Request)
    requires DistinctIds(c.images) && req.purpose == Main
    ensures var d := Final(c, limits, req); RetiresTheRest(Start(c), d.work, Live(c.images), d.hydrated)
  {
    var live, order, n := Live(c.images), InRound(c, limits), Excess(InRound(c, limits), limits.maxBytes);
    var w0 := AgedOut(c, limits);
    var w1, kept := Budgeted(w0, order, limits.maxBytes), order[n..];
    var d := Hydrated(w1, kept, limits, req);
    LiveIds(c, limits);
    AgingRetires(c, limits);
    BudgetRetires(w0, order, limits.maxBytes);
    RetiringComposes(Start(c), w0, w1, live, order, kept);
    HydrationRetires(w1, kept, limits, req);
    RetiringComposes(Start(c), w1, d.work, live, kept, d.hydrated);
    FittingRetires(d, req);
    RetiringComposes(Start(c), d.work, Fitted(d, req).work, live, d.hydrated, Fitted(d, req).hydrated);
  }

  /** A main request retires every usable image that it does not carry, and nothing else: what it leaves out is
      never silently kept, and what it carries stays usable. */
  lemma RetiresExactlyWhatItDrops(c: Context, limits: Limits, req: Request)
    requires DistinctIds(c.images) && req.purpose == Main
    ensures var kept := Final(c, limits, req).hydrated;
            && Gone(Prepare(c, limits, req).0.images) == Gone(c.images) + (IdsOf(Live(c.images)) - IdsOf(kept))
            && IdsOf(kept) <= IdsOf(Live(c.images)) && DistinctIds(kept)
            && Prepare(c, limits, req).1.selected == Names(kept)
  {
    FinalRetires(c, limits, req);
  }

  lemma {:induction false} SummaryFittingRetiresNothing(d: Draft, req: Request)
    requires req.purpose == Summary
    ensures Fitted(d, req).work == d.work
    decreases |d.hydrated|
  {
    if Refused(d, req) && d.hydrated != [] { SummaryFittingRetiresNothing(WithoutOldest(d, Summary), req); }
  }

  /** A summary written by a model without vision retires images only by age and declared size: those within both
      limits stay usable for the main model, although the summary shows none. */
  lemma SummaryRetiresOnlyByAgeAndBudget(c: Context, limits: Limits, req: Request)
    requires DistinctIds(c.images) && req.purpose == Summary && req.support != Some(true)
    ensures var within := InRound(c, limits)[Excess(InRound(c, limits), limits.maxBytes)..];
            && Gone(Prepare(c, limits, req).0.images) == Gone(c.images) + (IdsOf(Live(c.images)) - IdsOf(within))
            && Prepare(c, limits, req).1.selected == []
            && Prepare(c, limits, req).0.selected == c.selected
  {
    var order, w0 := InRound(c, limits), AgedOut(c, limits);
    var n, w1 := Excess(order, limits.maxBytes), Budgeted(w0, order, limits.maxBytes);
    LiveIds(c, limits);
    AgingRetires(c, limits);
    BudgetRetires(w0, order, limits.maxBytes);
    RetiringComposes(Start(c), w0, w1, Live(c.images), order, order[n..]);
    SummaryFittingRetiresNothing(Hydrated(w1, order[n..], limits, req), req);
  }

  /** A summary written by a model with vision also retires what turns out unreadable or too large; the images within
      every limit stay usable, even those it leaves out because the provider refuses the request. */
  lemma SummaryWithVisionRetires(c: Context, limits: Limits, req: Request) returns (k: nat)
    requires DistinctIds(c.images) && req.purpose == Summary && req.support == Some(true)
    ensures var within := InRound(c, limits)[Excess(InRound(c, limits), limits.maxBytes)..];
            var loaded := Loaded(within, req.load);
            var shown := loaded[Excess(loaded, limits.maxBytes)..];
            && Gone(Prepare(c, limits, req).0.images) == Gone(c.images) + (IdsOf(Live(c.images)) - IdsOf(shown))
            && k <= |shown| && Prepare(c, limits, req).1.selected == Names(shown[k..])
            && Prepare(c, limits, req).0.selected == c.selected
  {
    var order, w0 := InRound(c, limits), AgedOut(c, limits);
    var n, w1 := Excess(order, limits.maxBytes), Budgeted(w0, order, limits.maxBytes);
    var d := Hydrated(w1, order[n..], limits, req);
    LiveIds(c, limits);
    AgingRetires(c, limits);
    BudgetRetires(w0, order, limits.maxBytes);
    RetiringComposes(Start(c), w0, w1, Live(c.images), order, order[n..]);
    HydrationRetires(w1, order[n..], limits, req);
    RetiringComposes(Start(c), w1, d.work, Live(c.images), order[n..], d.hydrated);
    SummaryFittingRetiresNothing(d, req);
    k := FittedIsSuffix(d, req);
  }

  // ---- A retired image never comes back ----

  /** Preparing changes only what retention is about: ids stay in place and no retired image is revived. */
  ghost predicate OnlyRetires(a: seq<Ref>, b: seq<Ref>) {
    |a| == |b| && forall k | 0 <= k < |a| ::
      b[k].id == a[k].id && b[k].delivered == a[k].delivered && (a[k].evicted ==> b[k].evicted)
  }

  lemma {:induction false} EvictAllOnlyRetires(w: Work, refs: seq<Ref>, reason: string)
    ensures OnlyRetires(w.images, EvictAll(w, refs, reason).images)
    decreases |refs|
  {
    if refs != [] { EvictAllOnlyRetires(w, refs[..|refs| - 1], reason); }
  }

  lemma {:induction false} LoadAllOnlyRetires(w: Work, refs: seq<Ref>, load: string -> Option<nat>)
    ensures OnlyRetires(w.images, LoadAll(w, refs, load).images)
    decreases |refs|
  {
    if refs != [] { LoadAllOnlyRetires(w, refs[..|refs| - 1], load); }
  }

  lemma {:induction false} FittedOnlyRetires(d: Draft, req: Request)
    ensures OnlyRetires(d.work.images, Fitted(d, req).work.images)
    decreases |d.hydrated|
  {
    if Refused(d, req) && d.hydrated != [] { FittedOnlyRetires(WithoutOldest(d, req.purpose), req); }
  }

  lemma HydratedOnlyRetires(w: Work, refs: seq<Ref>, limits: Limits, req: Request)
    ensures OnlyRetires(w.images, Hydrated(w, refs, limits, req).work.images)
  {
    if req.support == Some(true) {
      var loaded := Loaded(refs, req.load);
      LoadAllOnlyRetires(w, refs, req.load);
      EvictAllOnlyRetires(LoadAll(w, refs, req.load), loaded[..Excess(loaded, limits.maxBytes)], "encoded_byte_budget");
    } else {
      EvictAllOnlyRetires(w, refs, Unsupported(req.support));
    }
  }

  lemma PrepareOnlyRetires(c: Context, limits: Limits, req: Request)
    ensures OnlyRetires(c.images, Prepare(c, limits, req).0.images)
  {
    var order := InRound(c, limits);
    var n, w0, w1 := Excess(order, limits.maxBytes), AgedOut(c, limits), Budgeted(AgedOut(c, limits), order, limits.maxBytes);
    EvictAllOnlyRetires(Start(c), Stale(c, limits), "round_limit");
    EvictAllOnlyRetires(w0, order[..n], "encoded_byte_budget");
    HydratedOnlyRetires(w1, order[n..], limits, req);
    FittedOnlyRetires(Hydrated(w1, order[n..], limits, req), req);
  }

  /** A session's retention state and the previews made so far, each of which may still be committed. */
  datatype Retention = Retention(session: Context, staged: seq<Context>)

  datatype Action =
    | DoRequest(req: Request)     // prepared directly, or previewed and committed at once
    | DoPreview(req: Request)
    | DoCommit(k: nat)            // a preview is accepted, perhaps long after it was made
    | DoRespond
    | DoAdd(refs: seq<Ref>)
    | DoReset

  function Step(s: Retention, limits: Limits, a: Action): Retention {
    var c := s.session;
    match a
    case DoRequest(req) => s.(session := Prepare(c, limits, req).0)
    case DoPreview(req) => s.(staged := s.staged + [Prepare(c, limits, req).0])
    case DoCommit(k) => if k < |s.staged| then s.(session := Commit(c, s.staged[k])) else s
    case DoRespond => s.(session := MarkResponse(c))
    case DoAdd(refs) => s.(session := AddReferences(c, refs))
    case DoReset => s.(session := Context([], map[], [], {}, c.round))
  }

  /** Some request of the run carries the image. */
  predicate EverSelected(s: Retention, limits: Limits, actions: seq<Action>, id: string)
    decreases |actions|
  {
    actions != [] &&
    ( ((actions[0].DoRequest? || actions[0].DoPreview?) && id in Prepare(s.session, limits, actions[0].req).1.selected)
      || EverSelected(Step(s, limits, actions[0]), limits, actions[1..], id))
  }

  ghost predicate IsRetired(images: seq<Ref>, id: string) {
    forall r | r in images && r.id == id :: r.evicted
  }

  lemma NamesAreIds(refs: seq<Ref>, id: string)
    ensures id in Names(refs) <==> id in IdsOf(refs)
  {
    if id in Names(refs) {
      var k :| 0 <= k < |refs| && Names(refs)[k] == id;
      assert refs[k] in refs;
    }
    if id in IdsOf(refs) {
      var r :| r in refs && r.id == id;
      var k :| 0 <= k < |refs| && refs[k] == r;
      assert Names(refs)[k] == id;
    }
  }

  lemma RetiredNotInRound(c: Context, limits: Limits, id: string)
    requires IsRetired(c.images, id)
    ensures id !in IdsOf(InRound(c, limits))
  {
    SortKeepsItems(Recent(c, limits), ByRound(c.round + 1));
    forall r | r in InRound(c, limits) ensures r.id != id {
      assert r in Recent(c, limits);
      assert r in Live(c.images);
    }
  }

  lemma RetiredNotSelected(c: Context, limits: Limits, req: Request, id: string)
    requires IsRetired(c.images, id)
    ensures id !in Prepare(c, limits, req).1.selected
  {
    var hydrated, all := Final(c, limits, req).hydrated, Loaded(InRound(c, limits), req.load);
    var k := KeepsYoungestWithinBudget(c, limits, req);
    RetiredNotInRound(c, limits, id);
    LoadedIds(InRound(c, limits), req.load);
    IdsSplit(all, k);
    NamesAreIds(hydrated, id);
  }

  /** The image is retired, and every preview that may still be committed has it retired, or does not know it. */
  ghost predicate RetiredEverywhere(s: Retention, id: string) {
    IsRetired(s.session.images, id) && forall t | t in s.staged :: IsRetired(t.images, id)
  }

  lemma PreparingKeepsRetired(c: Context, limits: Limits, req: Request, id: string)
    requires IsRetired(c.images, id)
    ensures IsRetired(Prepare(c, limits, req).0.images, id)
  {
    PrepareOnlyRetires(c, limits, req);
    StillRetired(c.images, Prepare(c, limits, req).0.images, id);
  }

  lemma StepKeepsRetired(s: Retention, limits: Limits, a: Action, id: string)
    requires RetiredEverywhere(s, id) && (a.DoAdd? ==> id !in IdsOf(a.refs))
    ensures RetiredEverywhere(Step(s, limits, a), id)
  {
    var c := s.session;
    match a
    case DoRequest(req) => PreparingKeepsRetired(c, limits, req, id);
    case DoPreview(req) => PreparingKeepsRetired(c, limits, req, id);
    case DoRespond => StillRetired(c.images, MarkResponse(c).images, id);
    case DoAdd(refs) => AddKeepsImages(c, refs);
    case _ =>
  }

  lemma StillRetired(a: seq<Ref>, b: seq<Ref>, id: string)
    requires IsRetired(a, id) && |a| == |b| && forall k | 0 <= k < |a| :: b[k].id == a[k].id && (a[k].evicted ==> b[k].evicted)
    ensures IsRetired(b, id)
  {
    forall r | r in b && r.id == id ensures r.evicted {
      var k :| 0 <= k < |b| && b[k] == r;
      assert a[k] in a;
    }
  }

  /** Once an image is retired, in the session and in every preview still to be committed, no later request of any run
      carries it, as long as its id is not issued again. */
  lemma {:induction false} RetiredForGood(s: Retention, limits: Limits, actions: seq<Action>, id: string)
    requires RetiredEverywhere(s, id)
    requires forall a | a in actions && a.DoAdd? :: id !in IdsOf(a.refs)
    ensures !EverSelected(s, limits, actions, id)
    decreases |actions|
  {
    if actions != [] {
      var a := actions[0];
      assert a in actions;
      if a.DoRequest? || a.DoPreview? { RetiredNotSelected(s.session, limits, a.req, id); }
      StepKeepsRetired(s, limits, a, id);
      RetiredForGood(Step(s, limits, a), limits, actions[1..], id);
    }
  }

  /** A retired image stays retired, whichever preview is committed next, exactly when every one of them has it retired
      or does not know it. */
  lemma CommitsKeepRetiredIff(s: Retention, limits: Limits, id: string)
    requires IsRetired(s.session.images, id)
    ensures (forall k :: IsRetired(Step(s, limits, DoCommit(k)).session.images, id)) <==> RetiredEverywhere(s, id)
  {
    forall k | 0 <= k < |s.staged| ensures Step(s, limits, DoCommit(k)).session.images == s.staged[k].images {
    }
    if forall k :: IsRetired(Step(s, limits, DoCommit(k)).session.images, id) {
      forall t | t in s.staged ensures IsRetired(t.images, id) {
        var k :| 0 <= k < |s.staged| && s.staged[k] == t;
        assert IsRetired(Step(s, limits, DoCommit(k)).session.images, id);
      }
    }
  }

  // ---- Adopting references ----

  /** Adopting references loses and invents no image; imported ones are put back in their branch's order. */
  lemma AddKeepsImages(c: Context, refs: seq<Ref>)
    ensures var all, after := c.images + refs, AddReferences(c, refs).images; var n := ImportedPrefix(all);
            && multiset(after) == multiset(all) && (forall r :: r in after <==> r in c.images || r in refs)
            && |after| == |all| && after[n..] == all[n..] && SortedBy(after[..n], ImportOrder())
  {
    var all := c.images + refs;
    var n := ImportedPrefix(all);
    var sorted := SortBy(all[..n], ImportOrder());
    SortPermutes(all[..n], ImportOrder());
    assert all == all[..n] + all[n..];
    assert AddReferences(c, refs).images == sorted + all[n..];
    forall r ensures r in sorted + all[n..] <==> r in all {
      assert r in sorted + all[n..] <==> r in multiset(sorted + all[n..]);
      assert r in all <==> r in multiset(all);
    }
    ImportSorts(all[..n]);
  }

  lemma {:induction false} ImportSorts(refs: seq<Ref>)
    requires forall r | r in refs :: r.sourceOrder.Some?
    ensures SortedBy(SortBy(refs, ImportOrder()), ImportOrder())
  {
    if refs != [] {
      ImportSorts(refs[1..]);
      SortKeepsItems(refs[1..], ImportOrder());
      ImportInserts(refs[0], SortBy(refs[1..], ImportOrder()));
    }
  }

  lemma {:induction false} ImportInserts(r: Ref, refs: seq<Ref>)
    requires r.sourceOrder.Some? && (forall x | x in refs :: x.sourceOrder.Some?) && SortedBy(refs, ImportOrder())
    ensures SortedBy(Insert(r, refs, ImportOrder()), ImportOrder())
  {
    if refs != [] && !ImportOrder()(r, refs[0]) {
      var rest := Insert(r, refs[1..], ImportOrder());
      ImportInserts(r, refs[1..]);
      InsertPermutes(r, refs[1..], ImportOrder());
      forall y | y in rest ensures ImportOrder()(refs[0], y) {
        assert y in multiset(rest);
        assert y == r || y in refs[1..];
      }
    }
  }

  // ---- Notices ----

  /** When a response is accepted all pending notices are dropped, but only those recorded with the last main request
      are marked as delivered: no pending notice is lost exactly when every one of them was recorded. */
  lemma ResponseMarksNoticesIff(c: Context)
    requires c.notices.Keys <= IdsOf(c.images)
    requires forall r | r in c.images && r.id in c.notices :: !r.noticeDelivered
    ensures MarkResponse(c).notices == map[]
    ensures (forall r | r in MarkResponse(c).images && r.id in c.notices :: r.noticeDelivered) <==> c.notices.Keys <= c.noticeIds
  {
    var after := MarkResponse(c).images;
    if c.notices.Keys <= c.noticeIds {
      forall r | r in after && r.id in c.notices ensures r.noticeDelivered {
        var k :| 0 <= k < |after| && after[k] == r;
        assert after[k] == AfterResponse(c.images[k], c.selected, c.noticeIds);
      }
    } else {
      var id :| id in c.notices && id !in c.noticeIds;
      var r :| r in c.images && r.id == id;
      var k :| 0 <= k < |c.images| && c.images[k] == r;
      assert after[k] == AfterResponse(r, c.selected, c.noticeIds);
      assert after[k] in after && !after[k].noticeDelivered;
    }
  }

  /** Straight after a main request every pending notice is recorded; a summary request in between can add notices
      that the response then drops unrecorded. */
  lemma MainRequestRecordsNotices(c: Context, limits: Limits, req: Request)
    ensures req.purpose == Main ==> Prepare(c, limits, req).0.noticeIds == Prepare(c, limits, req).0.notices.Keys
    ensures req.purpose == Summary ==> Prepare(c, limits, req).0.noticeIds == c.noticeIds
  {
  }

  const UNREADABLE := "missing_or_corrupt_file"

  function Lost(r: Ref): Ref {
    r.(active := false, evicted := true, reason := UNREADABLE)
  }

  /** A fresh image within the byte budget is the only candidate. */
  lemma OneCandidate(c: Context, limits: Limits, r: Ref)
    requires c.images == [r] && IsLive()(r) && r.created == None && r.bytes <= limits.maxBytes && limits.keepRounds > 0
    ensures InRound(c, limits) == [r] && Excess([r], limits.maxBytes) == 0
    ensures Budgeted(AgedOut(c, limits), [r], limits.maxBytes) == Start(c)
  {
    var now := c.round + 1;
    FilterOne(r, IsLive());
    FilterOne(r, TooOld(now, limits.keepRounds));
    assert Live(c.images) == [r] && Recent(c, limits) == [r] && Stale(c, limits) == [];
    assert [r][1..] == [] && SortBy([r], ByRound(now)) == Insert(r, [], ByRound(now));
    assert Bytes([r]) == r.bytes + Bytes([]);
    assert [r][..0] == [];
  }

  lemma FreshImageIsCarried(c: Context, limits: Limits, r: Ref, req: Request)
    requires c.images == [r] && IsLive()(r) && r.created == None && r.bytes <= limits.maxBytes && limits.keepRounds > 0
    requires req == Request(Main, Some(true), [], _ => Some(r.bytes), _ => None)
    ensures Prepare(c, limits, req).0 == c.(selected := [r.id], noticeIds := c.notices.Keys)
    ensures Prepare(c, limits, req).1.selected == [r.id]
  {
    OneCandidate(c, limits, r);
    assert [r][0..] == [r] && [r][..0] == [];
    assert Loaded([r], req.load) == [] + [r] == [r];
    assert Resize([r], r.id, r.bytes) == [r];
    assert LoadAll(Start(c), [r], req.load) == LoadOne(Start(c), r, req.load) == Start(c);
    assert Hydrated(Start(c), [r], limits, req) == Draft(Start(c), [r], []);
    assert Final(c, limits, req) == Draft(Start(c), [r], []);
    assert Names([r]) == [r.id];
  }

  lemma UnreadableImageIsLost(c: Context, limits: Limits, r: Ref, req: Request)
    requires c.images == [r] && IsLive()(r) && r.created == None && r.bytes <= limits.maxBytes && limits.keepRounds > 0
    requires !r.delivered && req == Request(Summary, Some(true), [], _ => None, _ => None)
    ensures Prepare(c, limits, req).0 == c.(images := [Lost(r)], notices := c.notices[r.id := UNREADABLE])
  {
    OneCandidate(c, limits, r);
    assert [r][0..] == [r] && [r][..0] == [];
    assert Loaded([r], req.load) == [] + [] == [];
    var w := LoadAll(Start(c), [r], req.load);
    assert LoadAll(Start(c), [], req.load) == Start(c);
    assert w == LoadOne(Start(c), r, req.load) == Evict(Start(c), r, UNREADABLE);
    assert Retire([r], r.id, UNREADABLE) == [Lost(r)];
    assert Budgeted(w, [], limits.maxBytes) == w;
    assert Hydrated(Start(c), [r], limits, req) == Draft(w, [], []);
    assert Final(c, limits, req) == Draft(w, [], []);
  }

  /** A main request carries an image, a summary request then finds its file unreadable, and the response to the main
      request drops the pending notice without marking it. */
  lemma NoticeLostUnmarked(r: Ref, limits: Limits) returns (c: Context)
    requires IsLive()(r) && r.created == None && !r.delivered && !r.noticeDelivered
    requires r.bytes <= limits.maxBytes && limits.keepRounds > 0
    ensures var carry := Request(Main, Some(true), [], _ => Some(r.bytes), _ => None);
            var fail := Request(Summary, Some(true), [], _ => None, _ => None);
            var start := Context([r], map[], [], {}, 0);
            c == Prepare(Prepare(start, limits, carry).0, limits, fail).0
    ensures c.notices == map[r.id := UNREADABLE]
    ensures MarkResponse(c).notices == map[] && MarkResponse(c).images == [Lost(r).(delivered := true)]
  {
    var carry := Request(Main, Some(true), [], _ => Some(r.bytes), _ => None);
    var fail := Request(Summary, Some(true), [], _ => None, _ => None);
    var start := Context([r], map[], [], {}, 0);
    FreshImageIsCarried(start, limits, r, carry);
    var carried := Prepare(start, limits, carry).0;
    UnreadableImageIsLost(carried, limits, r, fail);
    c := Prepare(carried, limits, fail).0;
    assert c == Context([Lost(r)], map[r.id := UNREADABLE], [r.id], {}, 0);
  }

  /** After committing what is staged, the next main request carries the image. */
  lemma CarriedAfterCommit(s: Retention, limits: Limits, r: Ref, carry: Request)
    requires |s.staged| == 1 && s.staged[0].images == [r] && IsLive()(r) && r.created == None
    requires r.bytes <= limits.maxBytes && limits.keepRounds > 0
    requires carry == Request(Main, Some(true), [], _ => Some(r.bytes), _ => None)
    ensures EverSelected(s, limits, [DoCommit(0), DoRequest(carry)], r.id)
  {
    var back, actions := Step(s, limits, DoCommit(0)), [DoCommit(0), DoRequest(carry)];
    FreshImageIsCarried(back.session, limits, r, carry);
    assert actions[1..] == [DoRequest(carry)];
    assert EverSelected(back, limits, [DoRequest(carry)], r.id);
  }

  /** The session has lost the image, and the preview still has it. */
  lemma StaleState(r: Ref, limits: Limits, carry: Request, fail: Request) returns (s: Retention)
    requires IsLive()(r) && r.created == None && !r.delivered
    requires r.bytes <= limits.maxBytes && limits.keepRounds > 0
    requires carry == Request(Main, Some(true), [], _ => Some(r.bytes), _ => None)
    requires fail == Request(Summary, Some(true), [], _ => None, _ => None)
    ensures var c := Context([r], map[], [], {}, 0);
            s == Retention(Prepare(c, limits, fail).0, [Prepare(c, limits, carry).0])
    ensures s.session.images == [Lost(r)] && s.staged[0].images == [r]
  {
    var c := Context([r], map[], [], {}, 0);
    FreshImageIsCarried(c, limits, r, carry);
    UnreadableImageIsLost(c, limits, r, fail);
    s := Retention(Prepare(c, limits, fail).0, [Prepare(c, limits, carry).0]);
  }

  /** The state after making the preview and preparing the other request. */
  lemma StaleSteps(c: Context, limits: Limits, carry: Request, fail: Request)
    ensures Step(Step(Retention(c, []), limits, DoPreview(carry)), limits, DoRequest(fail)) ==
            Retention(Prepare(c, limits, fail).0, [Prepare(c, limits, carry).0])
  {
    assert [] + [Prepare(c, limits, carry).0] == [Prepare(c, limits, carry).0];
  }

  /** A preview is made, a summary then retires the image as unreadable, and committing the preview afterwards makes it
      usable again: the next main request carries it. */
  lemma LateCommitRevives(r: Ref, limits: Limits, carry: Request, fail: Request) returns (s: Retention)
    requires IsLive()(r) && r.created == None && !r.delivered
    requires r.bytes <= limits.maxBytes && limits.keepRounds > 0
    requires carry == Request(Main, Some(true), [], _ => Some(r.bytes), _ => None)
    requires fail == Request(Summary, Some(true), [], _ => None, _ => None)
    ensures var start := Retention(Context([r], map[], [], {}, 0), []);
            s == Step(Step(start, limits, DoPreview(carry)), limits, DoRequest(fail))
    ensures IsRetired(s.session.images, r.id)
    ensures EverSelected(s, limits, [DoCommit(0), DoRequest(carry)], r.id)
  {
    s := StaleState(r, limits, carry, fail);
    StaleSteps(Context([r], map[], [], {}, 0), limits, carry, fail);
    CarriedAfterCommit(s, limits, r, carry);
  }

  /** Committing a preview brings back the images and notices as they were when it was made: every image adopted since
      is lost, and so is its notice. */
  lemma LateCommitDropsAdoptedImages(c: Context, limits: Limits, req: Request, refs: seq<Ref>)
    ensures var staged := Prepare(c, limits, req).0;
            var late := Commit(AddReferences(c, refs), staged);
            && Commit(c, staged) == staged
            && late.images == staged.images && late.notices == staged.notices && IdsOf(late.images) == IdsOf(c.images)
            && (forall r | r in refs && r.id !in IdsOf(c.images) ::
                  r in AddReferences(c, refs).images && r.id !in IdsOf(late.images))
            && (|late.images| == |AddReferences(c, refs).images| <==> refs == [])
  {
    PrepareOnlyRetires(c, limits, req);
    SameIds(c.images, Prepare(c, limits, req).0.images);
    AddKeepsImages(c, refs);
  }
}
