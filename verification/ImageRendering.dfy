/** Where every block, image and notice of a prepared request is shown. */
module ImageRendering {
  import opened Ordering
  import opened Optional
  import opened ImageRetention
  import opened ImageLaws

  /** Some message before this place refers to the image. */
  ghost predicate SeenBefore(messages: seq<Message>, m: nat, k: nat, id: string) {
    exists i, j :: 0 <= i < |messages| && messages[i].BlockMessage? && 0 <= j < |messages[i].blocks| &&
      (i < m || (i == m && j < k)) && messages[i].blocks[j] == Reference(id)
  }

  /** A reference shows the image if this is the first one, says so if it is not, and else that it is missing. */
  ghost predicate ShownAs(messages: seq<Message>, m: nat, k: nat, available: set<string>, block: Block, piece: Piece) {
    match block
    case Plain(text) => piece == Kept(text)
    case Reference(id) =>
      if SeenBefore(messages, m, k, id) then piece == AlreadyAttached(id)
      else if id in available then piece == Pixels(id)
      else piece == Unavailable(id)
  }

  lemma {:induction false} FlatHas(messages: seq<Message>, block: Block)
    ensures block in Flat(messages) <==>
            exists i, j :: 0 <= i < |messages| && messages[i].BlockMessage? && 0 <= j < |messages[i].blocks| && messages[i].blocks[j] == block
    decreases |messages|
  {
    if messages != [] {
      var before, last := messages[..|messages| - 1], messages[|messages| - 1];
      FlatHas(before, block);
      if last.BlockMessage? && block in last.blocks {
        var j :| 0 <= j < |last.blocks| && last.blocks[j] == block;
        assert messages[|messages| - 1].blocks[j] == block;
      }
      if block in Flat(before) {
        var i, j :| 0 <= i < |before| && before[i].BlockMessage? && 0 <= j < |before[i].blocks| && before[i].blocks[j] == block;
        assert messages[i].blocks[j] == block;
      }
    }
  }

  lemma SeenIff(messages: seq<Message>, m: nat, k: nat, id: string)
    requires m < |messages| && messages[m].BlockMessage? && k <= |messages[m].blocks|
    ensures id in Linked(Flat(messages[..m])) + Linked(messages[m].blocks[..k]) <==> SeenBefore(messages, m, k, id)
  {
    var b := Reference(id);
    FlatHas(messages[..m], b);
    assert id in Linked(Flat(messages[..m])) <==> b in Flat(messages[..m]);
    assert id in Linked(messages[m].blocks[..k]) <==> b in messages[m].blocks[..k];
    if b in messages[m].blocks[..k] {
      var j :| 0 <= j < k && messages[m].blocks[j] == b;
    }
    if b in Flat(messages[..m]) {
      var i, j :| 0 <= i < m && messages[..m][i].BlockMessage? && 0 <= j < |messages[..m][i].blocks| && messages[..m][i].blocks[j] == b;
      assert messages[i].blocks[j] == b;
    }
    if SeenBefore(messages, m, k, id) {
      var i, j :| 0 <= i < |messages| && messages[i].BlockMessage? && 0 <= j < |messages[i].blocks| &&
        (i < m || (i == m && j < k)) && messages[i].blocks[j] == b;
      if i < m { assert messages[..m][i].blocks[j] == b; } else { assert messages[m].blocks[..k][j] == b; }
    }
  }

  lemma {:induction false} RenderedMessage(messages: seq<Message>, available: set<string>, m: nat)
    requires m < |messages|
    ensures |RenderAll(messages, available)| == |messages|
    ensures RenderAll(messages, available)[m] ==
            if messages[m].TextMessage? then SentText(messages[m].text)
            else SentPieces(RenderBlocks(messages[m].blocks, available, Linked(Flat(messages[..m]))))
    decreases |messages|
  {
    RenderedLength(messages, available);
    RenderedLength(messages[..|messages| - 1], available);
    if m < |messages| - 1 {
      RenderedMessage(messages[..|messages| - 1], available, m);
      assert messages[..|messages| - 1][..m] == messages[..m];
    }
  }

  lemma {:induction false} RenderedLength(messages: seq<Message>, available: set<string>)
    ensures |RenderAll(messages, available)| == |messages|
    decreases |messages|
  {
    if messages != [] { RenderedLength(messages[..|messages| - 1], available); }
  }

  /** Message by message and block by block, the request shows what the history holds, every image in the place of its
      first reference; the overlay with the rest follows as one message, if there is any. */
  lemma EveryBlockIsShown(messages: seq<Message>, notices: map<string, string>, hydrated: seq<Ref>, m: nat, k: nat)
    requires m < |messages|
    ensures var sent := Provider(messages, notices, hydrated);
            && |messages| <= |sent|
            && (messages[m].TextMessage? ==> sent[m] == SentText(messages[m].text))
            && (messages[m].BlockMessage? ==> sent[m].SentPieces? && |sent[m].pieces| == |messages[m].blocks|)
            && (messages[m].BlockMessage? && k < |messages[m].blocks| ==>
                  ShownAs(messages, m, k, IdsOf(hydrated), messages[m].blocks[k], sent[m].pieces[k]))
  {
    RenderedMessage(messages, IdsOf(hydrated), m);
    if messages[m].BlockMessage? && k < |messages[m].blocks| {
      var block := messages[m].blocks[k];
      RenderedAt(messages[m].blocks, IdsOf(hydrated), Linked(Flat(messages[..m])), k);
      if block.Reference? { SeenIff(messages, m, k, block.id); }
    }
  }

  /** Some message refers to the image. */
  ghost predicate Referred(messages: seq<Message>, id: string) {
    exists i, j :: 0 <= i < |messages| && messages[i].BlockMessage? && 0 <= j < |messages[i].blocks| && messages[i].blocks[j] == Reference(id)
  }

  ghost function Unreferred(messages: seq<Message>): Ref -> bool {
    (r: Ref) => !Referred(messages, r.id)
  }

  lemma LinkedIff(messages: seq<Message>, id: string)
    ensures id in Linked(Flat(messages)) <==> Referred(messages, id)
  {
    FlatHas(messages, Reference(id));
  }

  ghost predicate LabelledPairs(pieces: seq<Piece>, refs: seq<Ref>) {
    |pieces| == 2 * |refs| &&
    forall i | 0 <= i < |refs| :: pieces[2 * i] == Label(refs[i].id) && pieces[2 * i + 1] == Pixels(refs[i].id)
  }

  lemma OnePairMore(pieces: seq<Piece>, refs: seq<Ref>, r: Ref)
    requires LabelledPairs(pieces, refs)
    ensures LabelledPairs(pieces + [Label(r.id), Pixels(r.id)], refs + [r])
  {
    var pieces', refs' := pieces + [Label(r.id), Pixels(r.id)], refs + [r];
    forall i | 0 <= i < |refs'| ensures pieces'[2 * i] == Label(refs'[i].id) && pieces'[2 * i + 1] == Pixels(refs'[i].id) {
      if i < |refs| {
        assert pieces'[2 * i] == pieces[2 * i] && pieces'[2 * i + 1] == pieces[2 * i + 1];
      }
    }
  }

  lemma {:induction false} LooseArePairs(hydrated: seq<Ref>, messages: seq<Message>)
    ensures LabelledPairs(Loose(hydrated, Linked(Flat(messages))), Filter(hydrated, Unreferred(messages)))
    decreases |hydrated|
  {
    if hydrated != [] {
      var before, last := hydrated[..|hydrated| - 1], hydrated[|hydrated| - 1];
      LooseArePairs(before, messages);
      LinkedIff(messages, last.id);
      assert hydrated == before + [last];
      FilterSnoc(before, last, Unreferred(messages));
      OnePairMore(Loose(before, Linked(Flat(messages))), Filter(before, Unreferred(messages)), last);
    }
  }

  ghost predicate IsOverlay(message: Sent, notice: seq<Piece>, rest: seq<Ref>) {
    message.SentPieces? && notice <= message.pieces && LabelledPairs(message.pieces[|notice|..], rest)
  }

  /** The overlay: first the notices, if there are any, then every carried image that no message refers to, labelled,
      oldest first. It is sent exactly when it holds something. */
  lemma OverlayShowsTheRest(messages: seq<Message>, notices: map<string, string>, hydrated: seq<Ref>)
    ensures var sent, rest := Provider(messages, notices, hydrated), Filter(hydrated, Unreferred(messages));
            var notice := if |notices.Keys| == 0 then [] else [NoticeText(notices.Keys)];
            && (|sent| == |messages| || |sent| == |messages| + 1)
            && (|sent| == |messages| <==> notice == [] && rest == [])
            && (|sent| > |messages| ==> IsOverlay(sent[|messages|], notice, rest))
  {
    RenderedLength(messages, IdsOf(hydrated));
    LooseArePairs(hydrated, messages);
    var overlay := Overlay(notices, hydrated, Linked(Flat(messages)));
    var notice := if |notices.Keys| == 0 then [] else [NoticeText(notices.Keys)];
    assert notices == map[] <==> |notices.Keys| == 0;
    assert overlay == notice + Loose(hydrated, Linked(Flat(messages)));
    assert overlay[|notice|..] == Loose(hydrated, Linked(Flat(messages)));
  }

  ghost predicate AllPixels(pieces: seq<Piece>, refs: seq<Ref>) {
    |pieces| == |refs| && forall i | 0 <= i < |refs| :: pieces[i] == Pixels(refs[i].id)
  }

  lemma {:induction false} InlinedArePixels(hydrated: seq<Ref>, linked: set<string>, p: Ref -> bool)
    requires forall r | r in hydrated :: p(r) <==> r.id !in linked
    ensures AllPixels(Inlined(hydrated, linked), Reject(hydrated, p))
    decreases |hydrated|
  {
    if hydrated != [] {
      var before, last := hydrated[..|hydrated| - 1], hydrated[|hydrated| - 1];
      InlinedArePixels(before, linked, p);
      assert hydrated == before + [last];
      FilterSnoc(before, last, p);
    }
  }

  /** For the token count the overlay is followed by the carried images that some message refers to. */
  lemma InlinedAreReferred(hydrated: seq<Ref>, messages: seq<Message>)
    ensures AllPixels(Inlined(hydrated, Linked(Flat(messages))), Reject(hydrated, Unreferred(messages)))
  {
    forall r: Ref ensures Unreferred(messages)(r) <==> r.id !in Linked(Flat(messages)) { LinkedIff(messages, r.id); }
    InlinedArePixels(hydrated, Linked(Flat(messages)), Unreferred(messages));
  }

  /** The token count covers what the overlay shows and what is inlined in the messages, once each. */
  lemma CountedAsShown(messages: seq<Message>, notices: map<string, string>, hydrated: seq<Ref>, overlay: seq<Piece>)
    requires Provider(messages, notices, hydrated) ==
             RenderAll(messages, IdsOf(hydrated)) + if overlay == [] then [] else [SentPieces(overlay)]
    ensures Accounted(messages, notices, hydrated) == overlay + Inlined(hydrated, Linked(Flat(messages)))
  {
    var history, shown := RenderAll(messages, IdsOf(hydrated)), Overlay(notices, hydrated, Linked(Flat(messages)));
    var a, b := if shown == [] then [] else [SentPieces(shown)], if overlay == [] then [] else [SentPieces(overlay)];
    assert (history + a)[|history|..] == a && (history + b)[|history|..] == b;
    assert a == b && (a != [] ==> a[0] == b[0]);
  }
}
