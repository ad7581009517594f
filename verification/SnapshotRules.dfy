/** What a snapshot says and where it is put, told by characters, lines and neighbouring messages. */
module SnapshotRules {
  import opened ConnectorContext

  // ---- Characters and lines ----

  /** The characters a line ends with. */
  lemma Breaks(c: char)
    ensures IsBreak(c) <==> c as int in {10, 11, 12, 13, 28, 29, 30, 133, 8232, 8233}
  {
  }

  lemma WhiteSpace(c: char)
    ensures var n := c as int;
            IsSpace(c) <==> || n in {9, 10, 11, 12, 13, 28, 29, 30, 31, 32, 133, 160, 5760, 8232, 8233, 8239, 8287, 12288}
                            || 8192 <= n <= 8202
  {
  }

  ghost predicate AllSpace(s: string) {
    forall k | 0 <= k < |s| :: IsSpace(s[k])
  }

  /** `s` is white space, then `core`, then white space again, and `core` neither begins nor ends with any. */
  ghost predicate CoreOf(core: string, s: string, a: nat, b: nat) {
    && a <= b <= |s| && core == s[a..b] && AllSpace(s[..a]) && AllSpace(s[b..])
    && (a < b ==> !IsSpace(s[a]) && !IsSpace(s[b - 1]))
  }

  lemma {:induction false} LeftExact(s: string) returns (a: nat)
    ensures a <= |s| && StripLeft(s) == s[a..] && AllSpace(s[..a]) && (a < |s| ==> !IsSpace(s[a]))
  {
    a := 0;
    if s != "" && IsSpace(s[0]) {
      var b := LeftExact(s[1..]);
      a := b + 1;
      assert s[..a] == [s[0]] + s[1..][..b];
    }
  }

  lemma {:induction false} RightExact(s: string) returns (b: nat)
    ensures b <= |s| && StripRight(s) == s[..b] && AllSpace(s[b..]) && (b > 0 ==> !IsSpace(s[b - 1]))
    decreases |s|
  {
    b := |s|;
    if s != "" && IsSpace(s[|s| - 1]) {
      var init := s[..|s| - 1];
      b := RightExact(init);
      forall k | 0 <= k < |s[b..]| ensures IsSpace(s[b..][k]) {
        if b + k < |init| { assert init[b..][k] == s[b..][k]; }
      }
      assert s[..b] == init[..b];
    } else {
      assert s[..|s|] == s;
    }
  }

  /** Stripping leaves what stands between the white space at both ends. */
  lemma StripExact(s: string) returns (a: nat, b: nat)
    ensures CoreOf(Strip(s), s, a, b)
  {
    a := LeftExact(s);
    var rest := s[a..];
    var c := RightExact(rest);
    b := a + c;
    assert Strip(s) == rest[..c] == s[a..b];
    assert s[b..] == rest[c..];
    assert c > 0 ==> rest[0] == s[a] && rest[c - 1] == s[b - 1];
  }

  ghost predicate NoBreak(s: string) {
    forall k | 0 <= k < |s| :: !IsBreak(s[k])
  }

  /** What one line adds to what a snapshot says: nothing if it is blank or one of the two markers. */
  ghost function Row(line: string): multiset<string> {
    var row := Strip(line);
    if row == "" || row == "<connector-status>" || row == "</connector-status>" then multiset{} else multiset{row}
  }

  lemma {:induction false} FirstLineOf(line: string, b: char, rest: string)
    requires NoBreak(line) && IsBreak(b)
    ensures FirstLine(line + [b] + rest) == (line, rest)
    ensures FirstLine(line) == (line, "")
  {
    var s := line + [b] + rest;
    if line == "" {
      assert s[0] == b && s[1..] == rest;
    } else {
      assert s[0] == line[0] && s[1..] == line[1..] + [b] + rest;
      FirstLineOf(line[1..], b, rest);
      assert [line[0]] + line[1..] == line;
    }
  }

  /** A snapshot says what its lines say, each by itself, in whatever order they come. */
  lemma SaysByLines(line: string, b: char, rest: string)
    requires NoBreak(line) && IsBreak(b)
    ensures SnapshotKey(line + [b] + rest) == Row(line) + SnapshotKey(rest)
    ensures SnapshotKey(line) == Row(line)
  {
    FirstLineOf(line, b, rest);
    assert line + [b] + rest != "";
    if line == "" { assert Strip("") == ""; }
  }

  // ---- Appending ----

  /** The snapshot is put on lines of its own, after the text without its trailing white space, and with a notice if
      it takes the place of an earlier one. */
  ghost predicate Appends(r: string, content: string, snapshot: string, update: bool) {
    exists end: nat, a: nat, b: nat, core ::
      && CoreOf(core, snapshot, a, b)
      && end <= |content| && AllSpace(content[end..]) && (end > 0 ==> !IsSpace(content[end - 1]))
      && r == content[..end] + "\n\n" + (if update then NOTICE + "\n" else "") + core
  }

  lemma AppendedExactly(content: string, snapshot: string, update: bool)
    ensures Appends(AppendSnapshot(content, snapshot, update), content, snapshot, update)
  {
    var end := RightExact(content);
    var a, b := StripExact(snapshot);
    assert CoreOf(Strip(snapshot), snapshot, a, b);
  }

  /** A message that carries a trusted snapshot. */
  ghost predicate Carries(m: Message) {
    m.role == "user" && |m.status| > 0
  }

  /** `p` is the last of the first `n` messages that carries a snapshot. */
  ghost predicate LastCarrier(h: History, n: nat, p: nat) {
    p < n <= |h| && Carries(h[p]) && forall j | p < j < n :: !Carries(h[j])
  }

  lemma {:induction false} PreviousIff(h: History, n: nat, p: nat)
    requires n <= |h|
    ensures PreviousMarked(h, n) == p <==> LastCarrier(h, n, p)
    ensures PreviousMarked(h, n) < 0 <==> forall j | 0 <= j < n :: !Carries(h[j])
  {
    if n > 0 { PreviousIff(h, n - 1, p); }
  }

  /** The last message that carries a snapshot, if any does, says the same as this one. */
  ghost predicate SaidLast(h: History, snapshot: string) {
    exists p: nat :: LastCarrier(h, |h|, p) && SnapshotKey(h[p].status) == SnapshotKey(snapshot)
  }

  /** A message gets its snapshot appended exactly when it has one that says something else than the last message that
      carries one, with the notice if there is such a message. */
  lemma StatusAppendedIff(h: History, content: string, snapshot: string)
    ensures var r, update := AppendStatus(SnapshotKey, h, content, snapshot), exists p: nat :: LastCarrier(h, |h|, p);
            if snapshot == "" || SaidLast(h, snapshot) then r == content else Appends(r, content, snapshot, update)
  {
    var p := PreviousMarked(h, |h|);
    forall q: nat ensures LastCarrier(h, |h|, q) <==> p == q { PreviousIff(h, |h|, q); }
    AppendedExactly(content, snapshot, p >= 0);
    if p >= 0 { assert LastCarrier(h, |h|, p); }
  }

  // ---- Restoring ----

  ghost predicate Holds(text: string, fragment: string) {
    exists before, after :: text == before + fragment + after
  }

  lemma ContainsIff(text: string, fragment: string)
    ensures Contains(text, fragment) <==> Holds(text, fragment)
  {
    if Contains(text, fragment) {
      var k :| 0 <= k <= |text| && StartsAt(text, fragment, k);
      assert text == text[..k] + fragment + text[k + |fragment|..];
    }
    if before, after :| text == before + fragment + after {
      assert StartsAt(text, fragment, |before|);
    }
  }

  /** The message shows its snapshot, in its text or in one of its text blocks. */
  ghost predicate Shows(m: Message) {
    match m.content
    case Text(text) => Holds(text, Strip(m.status))
    case Blocks(blocks) => exists b :: b in blocks && b.TextBlock? && Holds(b.text, Strip(m.status))
  }

  lemma ShowsIff(m: Message)
    ensures ShowsStatus(m) <==> Shows(m)
  {
    match m.content
    case Text(text) => ContainsIff(text, Strip(m.status));
    case Blocks(blocks) =>
      forall b: Block | b.TextBlock? ensures Contains(b.text, Strip(m.status)) <==> Holds(b.text, Strip(m.status)) {
        ContainsIff(b.text, Strip(m.status));
      }
  }

  /** The message carries a snapshot, and the last one before it that does carries another. */
  ghost predicate Begins(key: Key, h: History, i: nat) {
    && i < |h| && Carries(h[i])
    && forall p: nat | LastCarrier(h, i, p) :: key(h[p].status) != key(h[i].status)
  }

  /** From `i` to `j` every message that carries a snapshot says what `i` says, and `j` is one of them. */
  ghost predicate SameState(key: Key, h: History, i: nat, j: nat) {
    && i <= j < |h| && Carries(h[j])
    && forall m | i <= m <= j && Carries(h[m]) :: key(h[m].status) == key(h[i].status)
  }

  lemma BeginsIff(key: Key, h: History, i: nat)
    requires i < |h| && IsMarked(h[i])
    ensures RunStart(key, h, i) == i <==> Begins(key, h, i)
  {
    var p := PreviousMarked(h, i);
    if p >= 0 { PreviousIff(h, i, p); }
    forall q: nat | LastCarrier(h, i, q) ensures q == p { PreviousIff(h, i, q); }
  }

  lemma {:induction false} RunIff(key: Key, h: History, i: nat, j: nat)
    requires Begins(key, h, i) && j < |h| && IsMarked(h[j])
    ensures RunStart(key, h, j) == i <==> SameState(key, h, i, j)
    decreases j
  {
    var p := PreviousMarked(h, j);
    BeginsIff(key, h, i);
    if j > i {
      assert p >= i;
      if key(h[p].status) == key(h[j].status) {
        RunIff(key, h, i, p);
        assert SameState(key, h, i, j) <==> SameState(key, h, i, p);
      }
    }
  }

  /** The state that begins here is not shown by any message that carries it. */
  ghost predicate Lost(key: Key, h: History, i: nat) {
    Begins(key, h, i) && forall j: nat | SameState(key, h, i, j) :: !Shows(h[j])
  }

  lemma LostIff(key: Key, h: History, i: nat)
    requires i < |h|
    ensures NeedsSnapshot(key, h, i) <==> Lost(key, h, i)
  {
    if IsMarked(h[i]) { BeginsIff(key, h, i); }
    if Begins(key, h, i) {
      forall j: nat | j < |h| ensures ShowsRun(key, h, i, j) <==> SameState(key, h, i, j) && Shows(h[j]) {
        if IsMarked(h[j]) { RunIff(key, h, i, j); }
        ShowsIff(h[j]);
      }
    }
  }

  /** The content with the snapshot put back: after the text, or in a block of its own at the end. */
  ghost predicate PutBack(r: Content, m: Message, update: bool) {
    match m.content
    case Text(text) => r.Text? && Appends(r.text, text, m.status, update)
    case Blocks(blocks) =>
      && r.Blocks? && |r.blocks| == |blocks| + 1 && r.blocks[..|blocks|] == blocks
      && r.blocks[|blocks|].TextBlock? && Appends(r.blocks[|blocks|].text, "", m.status, update)
  }

  /** Restoring puts a snapshot back exactly where a state begins that is not shown any more, and touches nothing else;
      the notice goes with it when an earlier message carries a snapshot. */
  lemma PutBackIffLost(key: Key, h: History, i: nat)
    requires i < |h|
    ensures var r, update := Restored(key, h), exists p: nat :: p < i && Carries(h[p]);
            && |r| == |h|
            && (!Lost(key, h, i) ==> r[i] == h[i])
            && (Lost(key, h, i) ==> r[i].role == h[i].role && r[i].status == h[i].status && PutBack(r[i].content, h[i], update))
  {
    var update := PreviousMarked(h, i) >= 0;
    LostIff(key, h, i);
    PreviousIff(h, i, 0);
    match h[i].content
    case Text(text) => AppendedExactly(text, h[i].status, update);
    case Blocks(blocks) => AppendedExactly("", h[i].status, update);
  }
}
