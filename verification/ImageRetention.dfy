/** Retention of session images: which images a model request carries, in what place, and which ones retire. */
module ImageRetention {
  import opened Ordering
  import opened Optional

  /** One image occurrence; `created` is the model round that introduced it, `bytes` its encoded size. */
  datatype Ref = Ref(
    id: string, created: Option<int>, bytes: nat, active: bool, eligible: bool, evicted: bool,
    reason: string, delivered: bool, noticeDelivered: bool, sourceOrder: Option<int>)

  datatype Block = Reference(id: string) | Plain(text: string)

  datatype Message = TextMessage(text: string) | BlockMessage(blocks: seq<Block>)

  /** What the provider is sent in place of the blocks of the history. */
  datatype Piece =
    | Pixels(id: string)
    | AlreadyAttached(id: string)
    | Unavailable(id: string)
    | Kept(text: string)
    | Label(id: string)
    | NoticeText(ids: set<string>)

  datatype Sent = SentText(text: string) | SentPieces(pieces: seq<Piece>)

  datatype Context = Context(
    images: seq<Ref>, notices: map<string, string>, selected: seq<string>, noticeIds: set<string>, round: nat)

  datatype Limits = Limits(keepRounds: nat, maxBytes: nat)

  datatype Purpose = Main | Summary

  /** `support` says whether the model takes images; `load` gives the encoded size of a readable file, and
      `preflight` whether the provider accepts the request, if it says so at all. */
  datatype Request = Request(
    purpose: Purpose, support: Option<bool>, messages: seq<Message>,
    load: string -> Option<nat>, preflight: seq<Sent> -> Option<bool>)

  datatype Eviction = Eviction(id: string, reason: string, neverDelivered: bool)

  // ---- Rendering ----

  function PieceFor(block: Block, available: set<string>, seen: set<string>): Piece {
    if block.Plain? then Kept(block.text)
    else if block.id in seen then AlreadyAttached(block.id)
    else if block.id in available then Pixels(block.id)
    else Unavailable(block.id)
  }

  function Linked(blocks: seq<Block>): set<string> {
    set b | b in blocks && b.Reference? :: b.id
  }

  /** The blocks as sent, with every image inlined at its first reference only. */
  function RenderBlocks(blocks: seq<Block>, available: set<string>, seen: set<string>): (r: seq<Piece>)
    ensures |r| == |blocks|
  {
    if blocks == [] then []
    else
      var before := blocks[..|blocks| - 1];
      RenderBlocks(before, available, seen) + [PieceFor(blocks[|blocks| - 1], available, seen + Linked(before))]
  }

  function Flat(messages: seq<Message>): seq<Block> {
    if messages == [] then []
    else
      var last := messages[|messages| - 1];
      Flat(messages[..|messages| - 1]) + if last.BlockMessage? then last.blocks else []
  }

  function RenderAll(messages: seq<Message>, available: set<string>): seq<Sent> {
    if messages == [] then []
    else
      var before, last := messages[..|messages| - 1], messages[|messages| - 1];
      RenderAll(before, available) +
        [if last.TextMessage? then SentText(last.text)
         else SentPieces(RenderBlocks(last.blocks, available, Linked(Flat(before))))]
  }

  function AllPieces(sent: seq<Sent>): seq<Piece> {
    if sent == [] then []
    else
      var last := sent[|sent| - 1];
      AllPieces(sent[..|sent| - 1]) + if last.SentPieces? then last.pieces else []
  }

  function IdsOf(refs: seq<Ref>): set<string> {
    set r | r in refs :: r.id
  }

  /** Labels and pixels of the images no message refers to. */
  function Loose(hydrated: seq<Ref>, linked: set<string>): seq<Piece> {
    if hydrated == [] then []
    else
      var last := hydrated[|hydrated| - 1];
      Loose(hydrated[..|hydrated| - 1], linked) + if last.id in linked then [] else [Label(last.id), Pixels(last.id)]
  }

  function Overlay(notices: map<string, string>, hydrated: seq<Ref>, linked: set<string>): seq<Piece> {
    (if notices == map[] then [] else [NoticeText(notices.Keys)]) + Loose(hydrated, linked)
  }

  function Provider(messages: seq<Message>, notices: map<string, string>, hydrated: seq<Ref>): seq<Sent> {
    var overlay := Overlay(notices, hydrated, Linked(Flat(messages)));
    RenderAll(messages, IdsOf(hydrated)) + if overlay == [] then [] else [SentPieces(overlay)]
  }

  /** The inlined images, for token accounting. */
  function Inlined(hydrated: seq<Ref>, linked: set<string>): seq<Piece> {
    if hydrated == [] then []
    else
      var last := hydrated[|hydrated| - 1];
      Inlined(hydrated[..|hydrated| - 1], linked) + if last.id in linked then [Pixels(last.id)] else []
  }

  function Accounted(messages: seq<Message>, notices: map<string, string>, hydrated: seq<Ref>): seq<Piece> {
    var linked := Linked(Flat(messages));
    Overlay(notices, hydrated, linked) + Inlined(hydrated, linked)
  }

  // ---- Preparing a request ----

  /** The part of the state that a request being prepared changes, and the evictions so far. */
  datatype Work = Work(images: seq<Ref>, notices: map<string, string>, evictions: seq<Eviction>)

  function Retired(r: Ref, id: string, reason: string): Ref {
    if r.id == id then r.(active := false, evicted := true, reason := reason) else r
  }

  function Retire(images: seq<Ref>, id: string, reason: string): seq<Ref> {
    seq(|images|, k requires 0 <= k < |images| => Retired(images[k], id, reason))
  }

  function Resized(r: Ref, id: string, bytes: nat): Ref {
    if r.id == id then r.(bytes := bytes) else r
  }

  function Resize(images: seq<Ref>, id: string, bytes: nat): seq<Ref> {
    seq(|images|, k requires 0 <= k < |images| => Resized(images[k], id, bytes))
  }

  function Evict(w: Work, r: Ref, reason: string): Work {
    Work(Retire(w.images, r.id, reason),
         if r.delivered then w.notices else w.notices[r.id := reason],
         w.evictions + [Eviction(r.id, reason, !r.delivered)])
  }

  function EvictAll(w: Work, refs: seq<Ref>, reason: string): Work {
    if refs == [] then w
    else Evict(EvictAll(w, refs[..|refs| - 1], reason), refs[|refs| - 1], reason)
  }

  function IsLive(): Ref -> bool {
    (r: Ref) => r.active && r.eligible && !r.evicted
  }

  function CreatedAt(r: Ref, now: int): int {
    if r.created.Some? then r.created.value else now
  }

  function TooOld(now: int, keepRounds: nat): Ref -> bool {
    (r: Ref) => now - CreatedAt(r, now) >= keepRounds
  }

  function ByRound(now: int): (Ref, Ref) -> bool {
    (x: Ref, y: Ref) => CreatedAt(x, now) <= CreatedAt(y, now)
  }

  function Bytes(refs: seq<Ref>): nat {
    if refs == [] then 0 else refs[0].bytes + Bytes(refs[1..])
  }

  /** How many of the oldest images have to go before the rest fit the budget. */
  function Excess(refs: seq<Ref>, budget: nat): (n: nat)
    ensures n <= |refs|
  {
    if refs == [] || Bytes(refs) <= budget then 0 else 1 + Excess(refs[1..], budget)
  }

  function LoadOne(w: Work, r: Ref, load: string -> Option<nat>): Work {
    if load(r.id).Some? then w.(images := Resize(w.images, r.id, load(r.id).value))
    else Evict(w, r, "missing_or_corrupt_file")
  }

  function LoadAll(w: Work, refs: seq<Ref>, load: string -> Option<nat>): Work {
    if refs == [] then w else LoadOne(LoadAll(w, refs[..|refs| - 1], load), refs[|refs| - 1], load)
  }

  /** The readable images, with their actual sizes. */
  function Loaded(refs: seq<Ref>, load: string -> Option<nat>): seq<Ref> {
    if refs == [] then []
    else
      var last := refs[|refs| - 1];
      Loaded(refs[..|refs| - 1], load) + if load(last.id).Some? then [last.(bytes := load(last.id).value)] else []
  }

  function Excluded(refs: seq<Ref>, reason: string): seq<(string, string)> {
    seq(|refs|, k requires 0 <= k < |refs| => (refs[k].id, reason))
  }

  datatype Draft = Draft(work: Work, hydrated: seq<Ref>, excluded: seq<(string, string)>)

  function Live(images: seq<Ref>): seq<Ref> {
    Filter(images, IsLive())
  }

  function Recent(c: Context, limits: Limits): seq<Ref> {
    Reject(Live(c.images), TooOld(c.round + 1, limits.keepRounds))
  }

  /** The usable images still within their rounds, oldest first; images of one round stay in history order. */
  function InRound(c: Context, limits: Limits): seq<Ref> {
    SortBy(Recent(c, limits), ByRound(c.round + 1))
  }

  function Stale(c: Context, limits: Limits): seq<Ref> {
    Filter(Live(c.images), TooOld(c.round + 1, limits.keepRounds))
  }

  function AgedOut(c: Context, limits: Limits): Work {
    EvictAll(Work(c.images, c.notices, []), Stale(c, limits), "round_limit")
  }

  function Budgeted(w: Work, refs: seq<Ref>, budget: nat): Work {
    EvictAll(w, refs[..Excess(refs, budget)], "encoded_byte_budget")
  }

  function Unsupported(support: Option<bool>): string {
    if support == Some(false) then "model_does_not_support_images" else "model_image_support_unknown"
  }

  function Hydrated(w: Work, refs: seq<Ref>, limits: Limits, req: Request): Draft {
    if req.support != Some(true) then
      if req.purpose == Summary then Draft(w, [], Excluded(refs, "summary_model_without_vision"))
      else Draft(EvictAll(w, refs, Unsupported(req.support)), [], [])
    else
      var loaded := Loaded(refs, req.load);
      Draft(Budgeted(LoadAll(w, refs, req.load), loaded, limits.maxBytes), loaded[Excess(loaded, limits.maxBytes)..], [])
  }

  function Refused(d: Draft, req: Request): bool {
    req.preflight(Provider(req.messages, d.work.notices, d.hydrated)) == Some(false)
  }

  function WithoutOldest(d: Draft, purpose: Purpose): Draft
    requires d.hydrated != []
  {
    var r := d.hydrated[0];
    if purpose == Summary then d.(hydrated := d.hydrated[1..], excluded := d.excluded + [(r.id, "provider_body_limit")])
    else d.(hydrated := d.hydrated[1..], work := Evict(d.work, r, "provider_body_limit"))
  }

  /** Drops the oldest image until the provider accepts the request or none is left. */
  function Fitted(d: Draft, req: Request): Draft
    decreases |d.hydrated|
  {
    if !Refused(d, req) || d.hydrated == [] then d else Fitted(WithoutOldest(d, req.purpose), req)
  }

  datatype Projection = Projection(
    sent: seq<Sent>, selected: seq<string>, encodedBytes: nat, evictions: seq<Eviction>,
    excluded: seq<(string, string)>, accounted: seq<Piece>, blocked: bool)

  function Names(refs: seq<Ref>): (r: seq<string>)
    ensures |r| == |refs| && forall k | 0 <= k < |r| :: r[k] == refs[k].id
  {
    seq(|refs|, k requires 0 <= k < |refs| => refs[k].id)
  }

  function Final(c: Context, limits: Limits, req: Request): Draft {
    var order := InRound(c, limits);
    var w := Budgeted(AgedOut(c, limits), order, limits.maxBytes);
    Fitted(Hydrated(w, order[Excess(order, limits.maxBytes)..], limits, req), req)
  }

  function Project(d: Draft, req: Request): Projection {
    Projection(Provider(req.messages, d.work.notices, d.hydrated), Names(d.hydrated), Bytes(d.hydrated),
               d.work.evictions, d.excluded, Accounted(req.messages, d.work.notices, d.hydrated), Refused(d, req))
  }

  function Settle(c: Context, d: Draft, purpose: Purpose): Context {
    var s := c.(images := d.work.images, notices := d.work.notices);
    if purpose == Main then s.(selected := Names(d.hydrated), noticeIds := s.notices.Keys) else s
  }

  function Prepare(c: Context, limits: Limits, req: Request): (Context, Projection) {
    var d := Final(c, limits, req);
    (Settle(c, d, req.purpose), Project(d, req))
  }

  /** Adopting what a preview staged. */
  function Commit(c: Context, staged: Context): Context {
    c.(images := staged.images, notices := staged.notices, selected := staged.selected, noticeIds := staged.noticeIds)
  }

  function AfterResponse(r: Ref, selected: seq<string>, noticeIds: set<string>): Ref {
    r.(delivered := r.delivered || r.id in selected, noticeDelivered := r.noticeDelivered || r.id in noticeIds)
  }

  function MarkResponse(c: Context): Context {
    c.(round := c.round + 1, notices := map[],
       images := seq(|c.images|, k requires 0 <= k < |c.images| => AfterResponse(c.images[k], c.selected, c.noticeIds)))
  }

  function NoticesFor(notices: map<string, string>, refs: seq<Ref>): map<string, string> {
    if refs == [] then notices
    else
      var before, r := NoticesFor(notices, refs[..|refs| - 1]), refs[|refs| - 1];
      if r.evicted && !r.delivered && !r.noticeDelivered then before[r.id := r.reason] else before
  }

  /** How many leading images still carry their place in an imported branch. */
  function ImportedPrefix(images: seq<Ref>): (n: nat)
    ensures n <= |images| && (forall k | 0 <= k < n :: images[k].sourceOrder.Some?)
    ensures n < |images| ==> images[n].sourceOrder.None?
  {
    if images == [] || images[0].sourceOrder.None? then 0 else 1 + ImportedPrefix(images[1..])
  }

  function ImportOrder(): (Ref, Ref) -> bool {
    (x: Ref, y: Ref) => x.sourceOrder.Some? && y.sourceOrder.Some? ==> x.sourceOrder.value <= y.sourceOrder.value
  }

  function AddReferences(c: Context, refs: seq<Ref>): Context {
    var all := c.images + refs;
    var n := ImportedPrefix(all);
    c.(images := SortBy(all[..n], ImportOrder()) + all[n..], notices := NoticesFor(c.notices, refs))
  }

  // ---- Steps of the loops ----

  lemma LinkedSnoc(blocks: seq<Block>, last: Block)
    ensures Linked(blocks + [last]) == Linked(blocks) + if last.Reference? then {last.id} else {}
  {
  }

  ghost predicate RenderedTo(blocks: seq<Block>, available: set<string>, seen: set<string>, pieces: seq<Piece>, rendered: set<string>) {
    pieces == RenderBlocks(blocks, available, seen) && rendered == seen + Linked(blocks)
  }

  lemma RenderOneMore(blocks: seq<Block>, block: Block, available: set<string>, seen: set<string>, pieces: seq<Piece>, rendered: set<string>)
    requires RenderedTo(blocks, available, seen, pieces, rendered)
    ensures RenderedTo(blocks + [block], available, seen, pieces + [PieceFor(block, available, rendered)],
                       if block.Reference? && block.id !in rendered then rendered + {block.id} else rendered)
  {
    assert (blocks + [block])[..|blocks|] == blocks;
    LinkedSnoc(blocks, block);
  }

  lemma EvictAllSnoc(w: Work, refs: seq<Ref>, k: nat, reason: string)
    requires k < |refs|
    ensures EvictAll(w, refs[..k + 1], reason) == Evict(EvictAll(w, refs[..k], reason), refs[k], reason)
  {
    assert refs[..k + 1][..k] == refs[..k];
  }

  lemma EvictAllOne(w: Work, refs: seq<Ref>, r: Ref, reason: string)
    ensures EvictAll(w, refs + [r], reason) == Evict(EvictAll(w, refs, reason), r, reason)
  {
    assert (refs + [r])[..|refs|] == refs;
  }

  function AgeOne(w: Work, candidates: seq<Ref>, r: Ref, now: int, keepRounds: nat): (Work, seq<Ref>) {
    if !r.active || !r.eligible || r.evicted then (w, candidates)
    else if now - CreatedAt(r, now) >= keepRounds then (Evict(w, r, "round_limit"), candidates)
    else (w, candidates + [r])
  }

  /** The work and the candidates after looking at some leading images. */
  ghost function Aging(start: Work, now: int, keepRounds: nat, looked: seq<Ref>): (Work, seq<Ref>) {
    if looked == [] then (start, [])
    else
      var (w, candidates) := Aging(start, now, keepRounds, looked[..|looked| - 1]);
      AgeOne(w, candidates, looked[|looked| - 1], now, keepRounds)
  }

  lemma AgingOneMore(start: Work, now: int, keepRounds: nat, looked: seq<Ref>, k: nat, w: Work, candidates: seq<Ref>)
    requires k < |looked| && (w, candidates) == Aging(start, now, keepRounds, looked[..k])
    ensures Aging(start, now, keepRounds, looked[..k + 1]) == AgeOne(w, candidates, looked[k], now, keepRounds)
  {
    assert looked[..k + 1][..k] == looked[..k];
  }

  lemma {:induction false} AgingExact(start: Work, now: int, keepRounds: nat, looked: seq<Ref>)
    ensures Aging(start, now, keepRounds, looked) ==
            (EvictAll(start, Filter(Live(looked), TooOld(now, keepRounds)), "round_limit"), Reject(Live(looked), TooOld(now, keepRounds)))
    decreases |looked|
  {
    if looked != [] {
      var before, r := looked[..|looked| - 1], looked[|looked| - 1];
      AgingExact(start, now, keepRounds, before);
      assert looked == before + [r];
      FilterSnoc(before, r, IsLive());
      FilterSnoc(Live(before), r, TooOld(now, keepRounds));
      EvictAllOne(start, Filter(Live(before), TooOld(now, keepRounds)), r, "round_limit");
    }
  }

  lemma AgingIsAgedOut(c: Context, limits: Limits)
    ensures Aging(Work(c.images, c.notices, []), c.round + 1, limits.keepRounds, c.images) == (AgedOut(c, limits), Recent(c, limits))
  {
    var start, now := Work(c.images, c.notices, []), c.round + 1;
    AgingExact(start, now, limits.keepRounds, c.images);
    assert Stale(c, limits) == Filter(Live(c.images), TooOld(now, limits.keepRounds));
    assert AgedOut(c, limits) == EvictAll(start, Stale(c, limits), "round_limit");
    assert Recent(c, limits) == Reject(Live(c.images), TooOld(now, limits.keepRounds));
  }

  /** Hydration without the final budget, over the first candidates. */
  ghost function Hydrating(w: Work, refs: seq<Ref>, req: Request): Draft {
    if req.support == Some(true) then Draft(LoadAll(w, refs, req.load), Loaded(refs, req.load), [])
    else if req.purpose == Summary then Draft(w, [], Excluded(refs, "summary_model_without_vision"))
    else Draft(EvictAll(w, refs, Unsupported(req.support)), [], [])
  }

  // ---- The class ----

  class ImageContext {
    const limits: Limits
    var images: seq<Ref>
    var notices: map<string, string>
    var selected: seq<string>
    var noticeIds: set<string>
    var round: nat

    function View(): Context
      reads this
    {
      Context(images, notices, selected, noticeIds, round)
    }

    constructor (limits: Limits, round: nat)
      ensures this.limits == limits && View() == Context([], map[], [], {}, round)
    {
      this.limits := limits;
      images, notices, selected, noticeIds, this.round := [], map[], [], {}, round;
    }

    constructor At(limits: Limits, c: Context)
      ensures this.limits == limits && View() == c
    {
      this.limits, images, notices := limits, c.images, c.notices;
      selected, noticeIds, round := c.selected, c.noticeIds, c.round;
    }

    method EvictRef(r: Ref, reason: string, evictions: seq<Eviction>) returns (more: seq<Eviction>)
      modifies this`images, this`notices
      ensures Work(images, notices, more) == Evict(Work(old(images), old(notices), evictions), r, reason)
    {
      images := Retire(images, r.id, reason);
      more := evictions + [Eviction(r.id, reason, !r.delivered)];
      if !r.delivered {
        notices := notices[r.id := reason];
      }
    }

    method AgeOut() returns (candidates: seq<Ref>, evictions: seq<Eviction>)
      modifies this`images, this`notices
      ensures Work(images, notices, evictions) == AgedOut(old(View()), limits)
      ensures candidates == Recent(old(View()), limits)
    {
      ghost var start := Work(images, notices, []);
      AgingIsAgedOut(View(), limits);
      var all, now := images, round + 1;
      candidates, evictions := [], [];
      for k := 0 to |all|
        invariant (Work(images, notices, evictions), candidates) == Aging(start, now, limits.keepRounds, all[..k])
      {
        var r := all[k];
        AgingOneMore(start, now, limits.keepRounds, all, k, Work(images, notices, evictions), candidates);
        if !r.active || !r.eligible || r.evicted {
          continue;
        }
        if now - CreatedAt(r, now) >= limits.keepRounds {
          evictions := EvictRef(r, "round_limit", evictions);
        } else {
          candidates := candidates + [r];
        }
      }
      assert all[..|all|] == all;
    }

    /** Pops the oldest images until the rest fit the byte budget. */
    method SpendBudget(refs: seq<Ref>, evictions: seq<Eviction>) returns (kept: seq<Ref>, more: seq<Eviction>)
      modifies this`images, this`notices
      ensures Work(images, notices, more) == Budgeted(Work(old(images), old(notices), evictions), refs, limits.maxBytes)
      ensures kept == refs[Excess(refs, limits.maxBytes)..]
    {
      ghost var w, n := Work(images, notices, evictions), 0;
      kept, more := refs, evictions;
      var total := Bytes(kept);
      while kept != [] && total > limits.maxBytes
        invariant n <= |refs| && kept == refs[n..] && total == Bytes(kept)
        invariant Excess(refs, limits.maxBytes) == n + Excess(kept, limits.maxBytes)
        invariant Work(images, notices, more) == EvictAll(w, refs[..n], "encoded_byte_budget")
        decreases |kept|
      {
        var r := kept[0];
        EvictAllSnoc(w, refs, n, "encoded_byte_budget");
        kept, total, n := kept[1..], total - r.bytes, n + 1;
        more := EvictRef(r, "encoded_byte_budget", more);
      }
    }

    method Hydrate(refs: seq<Ref>, req: Request, evictions: seq<Eviction>)
      returns (hydrated: seq<Ref>, excluded: seq<(string, string)>, more: seq<Eviction>)
      modifies this`images, this`notices
      ensures Draft(Work(images, notices, more), hydrated, excluded) ==
              Hydrated(Work(old(images), old(notices), evictions), refs, limits, req)
    {
      ghost var w := Work(images, notices, evictions);
      hydrated, excluded, more := [], [], evictions;
      for k := 0 to |refs|
        invariant Draft(Work(images, notices, more), hydrated, excluded) == Hydrating(w, refs[..k], req)
      {
        var r := refs[k];
        assert refs[..k + 1][..k] == refs[..k];
        if req.purpose == Summary && req.support != Some(true) {
          excluded := excluded + [(r.id, "summary_model_without_vision")];
        } else if req.support != Some(true) {
          more := EvictRef(r, if req.support == Some(false) then "model_does_not_support_images" else "model_image_support_unknown", more);
        } else {
          var bytes := req.load(r.id);
          if bytes.None? {
            more := EvictRef(r, "missing_or_corrupt_file", more);
          } else {
            images := Resize(images, r.id, bytes.value);
            hydrated := hydrated + [r.(bytes := bytes.value)];
          }
        }
      }
      assert refs[..|refs|] == refs;
      hydrated, more := SpendBudget(hydrated, more);
    }

    static method RenderMessage(blocks: seq<Block>, available: set<string>, seen: set<string>)
      returns (pieces: seq<Piece>, rendered: set<string>)
      ensures pieces == RenderBlocks(blocks, available, seen) && rendered == seen + Linked(blocks)
    {
      pieces, rendered := [], seen;
      for k := 0 to |blocks|
        invariant RenderedTo(blocks[..k], available, seen, pieces, rendered)
      {
        var block := blocks[k];
        assert blocks[..k + 1] == blocks[..k] + [block];
        RenderOneMore(blocks[..k], block, available, seen, pieces, rendered);
        if block.Plain? {
          pieces := pieces + [Kept(block.text)];
        } else if block.id in rendered {
          pieces := pieces + [AlreadyAttached(block.id)];
        } else {
          pieces := pieces + [if block.id in available then Pixels(block.id) else Unavailable(block.id)];
          rendered := rendered + {block.id};
        }
      }
      assert blocks[..|blocks|] == blocks;
    }

    static method RenderHistory(messages: seq<Message>, available: set<string>) returns (sent: seq<Sent>, rendered: set<string>)
      ensures sent == RenderAll(messages, available) && rendered == Linked(Flat(messages))
    {
      sent, rendered := [], {};
      for k := 0 to |messages|
        invariant sent == RenderAll(messages[..k], available) && rendered == Linked(Flat(messages[..k]))
      {
        assert messages[..k + 1][..k] == messages[..k];
        match messages[k]
        case TextMessage(text) =>
          sent := sent + [SentText(text)];
        case BlockMessage(blocks) =>
          var pieces;
          pieces, rendered := RenderMessage(blocks, available, rendered);
          sent := sent + [SentPieces(pieces)];
      }
      assert messages[..|messages|] == messages;
    }

    method RenderOverlay(hydrated: seq<Ref>, linked: set<string>) returns (overlay: seq<Piece>)
      ensures overlay == Overlay(notices, hydrated, linked)
    {
      overlay := if notices == map[] then [] else [NoticeText(notices.Keys)];
      ghost var head := overlay;
      for k := 0 to |hydrated|
        invariant overlay == head + Loose(hydrated[..k], linked)
      {
        assert hydrated[..k + 1][..k] == hydrated[..k];
        if hydrated[k].id in linked {
          continue;
        }
        var shown := [Label(hydrated[k].id), Pixels(hydrated[k].id)];
        assert overlay + shown == head + (Loose(hydrated[..k], linked) + shown);
        overlay := overlay + shown;
      }
      assert hydrated[..|hydrated|] == hydrated;
    }

    method RenderRequest(messages: seq<Message>, hydrated: seq<Ref>) returns (sent: seq<Sent>)
      ensures sent == Provider(messages, notices, hydrated)
    {
      var overlay := RenderOverlay(hydrated, Linked(Flat(messages)));
      var rendered;
      sent, rendered := RenderHistory(messages, IdsOf(hydrated));
      if overlay != [] {
        sent := sent + [SentPieces(overlay)];
      }
    }

    /** Renders the request again and again, dropping the oldest image each time the provider refuses it. */
    method FitToProvider(all: seq<Ref>, passed: seq<(string, string)>, evictions: seq<Eviction>, req: Request)
      returns (hydrated: seq<Ref>, excluded: seq<(string, string)>, more: seq<Eviction>, sent: seq<Sent>)
      modifies this`images, this`notices
      ensures var d := Fitted(Draft(Work(old(images), old(notices), evictions), all, passed), req);
              Draft(Work(images, notices, more), hydrated, excluded) == d && sent == Provider(req.messages, notices, hydrated)
    {
      ghost var first := Draft(Work(images, notices, evictions), all, passed);
      hydrated, excluded, more := all, passed, evictions;
      sent := RenderRequest(req.messages, hydrated);
      while req.preflight(sent) == Some(false) && hydrated != []
        invariant sent == Provider(req.messages, notices, hydrated)
        invariant Fitted(Draft(Work(images, notices, more), hydrated, excluded), req) == Fitted(first, req)
        decreases |hydrated|
      {
        var r := hydrated[0];
        hydrated := hydrated[1..];
        if req.purpose == Summary {
          excluded := excluded + [(r.id, "provider_body_limit")];
        } else {
          more := EvictRef(r, "provider_body_limit", more);
        }
        sent := RenderRequest(req.messages, hydrated);
      }
    }

    method DraftRequest(req: Request)
      returns (hydrated: seq<Ref>, excluded: seq<(string, string)>, evictions: seq<Eviction>, sent: seq<Sent>)
      modifies this`images, this`notices
      ensures var d := Final(old(View()), limits, req);
              && Draft(Work(images, notices, evictions), hydrated, excluded) == d
              && sent == Provider(req.messages, d.work.notices, d.hydrated)
    {
      ghost var c := View();
      var candidates;
      candidates, evictions := AgeOut();
      candidates := SortBy(candidates, ByRound(round + 1));
      assert candidates == InRound(c, limits);
      candidates, evictions := SpendBudget(candidates, evictions);
      hydrated, excluded, evictions := Hydrate(candidates, req, evictions);
      hydrated, excluded, evictions, sent := FitToProvider(hydrated, excluded, evictions, req);
    }

    method PrepareRequest(req: Request) returns (p: Projection)
      modifies this
      ensures (View(), p) == Prepare(old(View()), limits, req)
    {
      var hydrated, excluded, evictions, sent := DraftRequest(req);
      if req.purpose == Main {
        selected, noticeIds := Names(hydrated), notices.Keys;
      }
      p := Projection(sent, Names(hydrated), Bytes(hydrated), evictions, excluded,
                      Accounted(req.messages, notices, hydrated), req.preflight(sent) == Some(false));
    }

    /** Prepares against a copy; this session's retention state is left alone. */
    method Preview(req: Request) returns (staged: ImageContext, p: Projection)
      ensures fresh(staged) && staged.limits == limits
      ensures (staged.View(), p) == Prepare(View(), limits, req)
    {
      staged := new ImageContext.At(limits, View());
      p := staged.PrepareRequest(req);
    }

    method CommitStaged(staged: ImageContext)
      modifies this
      ensures View() == Commit(old(View()), old(staged.View()))
    {
      images, notices := staged.images, staged.notices;
      selected, noticeIds := staged.selected, staged.noticeIds;
    }

    /** A preview whose request is accepted leaves the session as preparing directly would have. */
    method PreviewAndCommit(req: Request) returns (p: Projection)
      modifies this
      ensures (View(), p) == Prepare(old(View()), limits, req)
    {
      var staged;
      staged, p := Preview(req);
      CommitStaged(staged);
    }

    method MarkModelResponse()
      modifies this
      ensures View() == MarkResponse(old(View()))
    {
      round := round + 1;
      var marked := [];
      for k := 0 to |images|
        invariant images == old(images) && selected == old(selected) && noticeIds == old(noticeIds) && round == old(round) + 1
        invariant |marked| == k && forall j | 0 <= j < k :: marked[j] == AfterResponse(images[j], selected, noticeIds)
      {
        var r := images[k];
        if r.id in selected {
          r := r.(delivered := true);
        }
        if r.id in noticeIds {
          r := r.(noticeDelivered := true);
        }
        marked := marked + [r];
      }
      images, notices := marked, map[];
    }

    method AdoptReferences(refs: seq<Ref>)
      modifies this`images, this`notices
      ensures View() == AddReferences(old(View()), refs)
    {
      for k := 0 to |refs|
        invariant images == old(images) + refs[..k] && notices == NoticesFor(old(notices), refs[..k])
      {
        var r := refs[k];
        assert refs[..k + 1][..k] == refs[..k];
        images := images + [r];
        if r.evicted && !r.delivered && !r.noticeDelivered {
          notices := notices[r.id := r.reason];
        }
      }
      assert refs[..|refs|] == refs;
      var n := ImportedPrefix(images);
      images := SortBy(images[..n], ImportOrder()) + images[n..];
    }

    method Reset()
      modifies this
      ensures View() == Context([], map[], [], {}, old(round))
    {
      images, selected, noticeIds, notices := [], [], {}, map[];
    }
  }
}
