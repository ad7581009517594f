/** Which outputs of the model the maintainer takes, told by what they spell rather than by the tests they pass. */
module OutputRules {
  import opened MaintainerOutput
  import opened Ordering
  import opened Optional

  ghost predicate SpellsList(j: Json, names: seq<string>) {
    j.Arr? && |j.items| == |names| && forall k | 0 <= k < |names| :: j.items[k] == Str(names[k])
  }

  ghost predicate SpellsGroup(j: Json, g: Group) {
    && j.Obj? && "winner_id" in j.fields && "loser_ids" in j.fields
    && j.fields["winner_id"] == Str(g.winner) && SpellsList(j.fields["loser_ids"], g.losers)
  }

  /** The output names these groups, in this order; whatever else it holds does not matter. */
  ghost predicate SpellsGroups(data: Json, groups: seq<Group>) {
    && data.Obj? && "groups" in data.fields && data.fields["groups"].Arr?
    && |data.fields["groups"].items| == |groups|
    && forall k | 0 <= k < |groups| :: SpellsGroup(data.fields["groups"].items[k], groups[k])
  }

  ghost predicate SaneGroup(g: Group, ids: set<string>) {
    && g.winner in ids && g.losers != [] && g.winner !in g.losers
    && (forall l | l in g.losers :: l in ids)
    && (forall i, j | 0 <= i < j < |g.losers| :: g.losers[i] != g.losers[j])
  }

  /** Every group has a known winner and other known losers, and nobody loses twice. */
  ghost predicate SaneGroups(groups: seq<Group>, ids: set<string>) {
    && (forall k | 0 <= k < |groups| :: SaneGroup(groups[k], ids))
    && (forall k, m | 0 <= k < m < |groups| :: forall l | l in groups[k].losers :: l !in groups[m].losers)
  }

  lemma {:induction false} SomebodyLoses(groups: seq<Group>, l: string)
    ensures l in LosersOf(groups) <==> exists k :: 0 <= k < |groups| && l in groups[k].losers
    decreases |groups|
  {
    if groups != [] {
      var init := groups[..|groups| - 1];
      SomebodyLoses(init, l);
      assert groups[..|groups|] == groups;
      LosersSnoc(groups, |groups| - 1);
      if l in LosersOf(init) {
        var k :| 0 <= k < |init| && l in init[k].losers;
        assert groups[k] == init[k];
      }
      if k :| 0 <= k < |groups| - 1 && l in groups[k].losers { assert init[k] == groups[k]; }
    }
  }

  lemma DistinctConcat<T>(a: seq<T>, b: seq<T>)
    ensures Distinct(a + b) <==> Distinct(a) && Distinct(b) && forall x | x in b :: x !in a
  {
    if Distinct(a + b) {
      DistinctPrefix(a, a + b);
      DistinctPieces(a, b, a + b);
    }
    if Distinct(a) && Distinct(b) && forall x | x in b :: x !in a {
      forall x, y | 0 <= x < y < |a + b| ensures (a + b)[x] != (a + b)[y] {
        if y >= |a| { assert b[y - |a|] in b; }
      }
    }
  }

  lemma {:induction false} NobodyLosesTwice(groups: seq<Group>)
    ensures Distinct(AllLosers(groups)) <==>
            && (forall k | 0 <= k < |groups| :: Distinct(groups[k].losers))
            && (forall k, m | 0 <= k < m < |groups| :: forall l | l in groups[k].losers :: l !in groups[m].losers)
    decreases |groups|
  {
    if groups != [] {
      var n := |groups| - 1;
      var init, last := groups[..n], groups[n].losers;
      NobodyLosesTwice(init);
      assert groups[..n + 1] == groups;
      LosersSnoc(groups, n);
      DistinctConcat(AllLosers(init), last);
      forall l ensures l in AllLosers(init) <==> exists k :: 0 <= k < n && l in groups[k].losers {
        SomebodyLoses(init, l);
        assert l in AllLosers(init) <==> l in LosersOf(init);
        if k :| 0 <= k < n && l in groups[k].losers { assert init[k] == groups[k]; }
      }
      forall k | 0 <= k < n ensures init[k] == groups[k] {}
    }
  }

  lemma GroupIsSpelled(j: Json, ids: set<string>)
    requires GroupShape(j, ids)
    ensures SpellsGroup(j, GroupOf(j, ids))
  {
    var losers, g := Field(j, "loser_ids").items, GroupOf(j, ids);
    assert Field(j, "winner_id") == Str(g.winner);
    forall k | 0 <= k < |losers| ensures losers[k] == Str(g.losers[k]) { assert losers[k] in losers; }
  }

  lemma SpelledGroupShape(j: Json, g: Group, ids: set<string>)
    requires SpellsGroup(j, g)
    ensures GroupShape(j, ids) <==>
            g.winner in ids && g.losers != [] && g.winner !in g.losers && forall l | l in g.losers :: l in ids
    ensures GroupShape(j, ids) ==> GroupOf(j, ids) == g
  {
    var losers := Field(j, "loser_ids").items;
    if GroupShape(j, ids) {
      forall l | l in g.losers ensures l in ids && l != g.winner {
        var k :| 0 <= k < |g.losers| && g.losers[k] == l;
        assert losers[k] in losers;
      }
      assert GroupOf(j, ids).losers == g.losers;
    }
    if g.winner in ids && g.losers != [] && g.winner !in g.losers && forall l | l in g.losers :: l in ids {
      forall l | l in losers ensures IsId(l, ids) && l != Field(j, "winner_id") {
        var k :| 0 <= k < |losers| && losers[k] == l;
        assert g.losers[k] in g.losers;
      }
    }
  }

  lemma SpelledShapes(data: Json, groups: seq<Group>, ids: set<string>)
    requires SpellsGroups(data, groups)
    ensures var items := Field(data, "groups").items;
            && |items| == |groups|
            && ((forall g | g in items :: GroupShape(g, ids)) <==> forall k | 0 <= k < |groups| :: GroupShape(items[k], ids))
            && ((forall g | g in items :: GroupShape(g, ids)) ==> GroupsOf(items, ids) == groups)
  {
    var items := Field(data, "groups").items;
    forall k | 0 <= k < |groups| ensures items[k] in items && (GroupShape(items[k], ids) ==> GroupOf(items[k], ids) == groups[k]) {
      SpelledGroupShape(items[k], groups[k], ids);
    }
    forall g | g in items ensures exists k :: 0 <= k < |groups| && items[k] == g {
      var k :| 0 <= k < |items| && items[k] == g;
      assert k < |groups| && items[k] == g;
    }
  }

  /** An arbitration that spells some groups is taken exactly when these are sane, and then they are what is read. */
  lemma SpelledGroupsAccepted(data: Json, groups: seq<Group>, ids: set<string>)
    requires SpellsGroups(data, groups)
    ensures ValidConflicts(data, ids) <==> SaneGroups(groups, ids)
    ensures ValidConflicts(data, ids) ==> GroupsOf(Field(data, "groups").items, ids) == groups
  {
    var items := Field(data, "groups").items;
    NobodyLosesTwice(groups);
    SpelledShapes(data, groups, ids);
    forall k | 0 <= k < |groups|
      ensures GroupShape(items[k], ids) && Distinct(groups[k].losers) <==> SaneGroup(groups[k], ids)
    {
      SpelledGroupShape(items[k], groups[k], ids);
    }
  }

  /** Exactly the outputs that spell sane groups are taken. */
  lemma ArbitrationAcceptedIff(data: Json, ids: set<string>)
    ensures ValidConflicts(data, ids) <==> exists groups :: SpellsGroups(data, groups) && SaneGroups(groups, ids)
  {
    if ValidConflicts(data, ids) {
      var items := Field(data, "groups").items;
      var groups := GroupsOf(items, ids);
      forall k | 0 <= k < |groups| ensures SpellsGroup(items[k], groups[k]) {
        assert items[k] in items;
        GroupIsSpelled(items[k], ids);
      }
      assert SpellsGroups(data, groups);
      SpelledGroupsAccepted(data, groups, ids);
    }
    if groups :| SpellsGroups(data, groups) && SaneGroups(groups, ids) {
      SpelledGroupsAccepted(data, groups, ids);
    }
  }

  /** A winner is recorded exactly when one of its groups names somebody that has not lost before. */
  lemma {:induction false} RecordedIff(groups: seq<Group>, w: string)
    ensures w in WinnersOf(groups) <==>
            exists k :: 0 <= k < |groups| && groups[k].winner == w && NamesNew(groups, k)
    decreases |groups|
  {
    if groups != [] {
      var n := |groups| - 1;
      var init := groups[..n];
      RecordedIff(init, w);
      forall k: nat | k < n ensures NamesNew(groups, k) <==> NamesNew(init, k) {
        assert forall m | 0 <= m < n :: init[m] == groups[m];
      }
      forall l ensures l in LosersOf(init) <==> exists m :: 0 <= m < n && l in groups[m].losers {
        SomebodyLoses(init, l);
        if m :| 0 <= m < n && l in groups[m].losers { assert init[m] == groups[m]; }
      }
      assert NamesNew(groups, n) <==> exists l :: l in groups[n].losers && l !in LosersOf(init);
      if w in WinnersOf(init) {
        var k :| 0 <= k < n && init[k].winner == w && NamesNew(init, k);
        assert groups[k].winner == w && NamesNew(groups, k);
      }
      if k :| 0 <= k < n && groups[k].winner == w && NamesNew(groups, k) {
        assert init[k].winner == w && NamesNew(init, k);
      }
    }
  }

  ghost predicate NamesNew(groups: seq<Group>, k: nat) {
    k < |groups| && exists l :: l in groups[k].losers && forall m | 0 <= m < k :: l !in groups[m].losers
  }

  // ---- Compaction ----

  /** The item has this content and these sources, and its hits are a number that is not negative, or a truth value. */
  ghost predicate SpellsMerged(j: Json, m: Merged) {
    && j.Obj? && "content" in j.fields && "sources" in j.fields && "hits" in j.fields
    && j.fields["content"] == Str(m.content) && SpellsList(j.fields["sources"], m.sources)
    && match j.fields["hits"] { case Int(n) => n >= 0 case Bool(_) => true case _ => false }
  }

  ghost predicate SpellsCompaction(data: Json, merged: seq<Merged>) {
    data.Arr? && |data.items| == |merged| && forall k | 0 <= k < |merged| :: SpellsMerged(data.items[k], merged[k])
  }

  /** Its content is not all white space, and it names known sources, at least one. */
  ghost predicate SaneMerged(m: Merged, ids: set<string>, space: char -> bool) {
    && (exists c :: c in m.content && !space(c))
    && m.sources != [] && forall s | s in m.sources :: s in ids
  }

  lemma SpelledMergedShape(j: Json, m: Merged, ids: set<string>, space: char -> bool)
    requires SpellsMerged(j, m)
    ensures MergedShape(j, ids, space) <==> SaneMerged(m, ids, space)
    ensures MergedShape(j, ids, space) ==> OneMerged(j, ids, space) == m
  {
    var sources := Field(j, "sources").items;
    if c :| c in m.content && !space(c) {
      var k :| 0 <= k < |m.content| && m.content[k] == c;
      assert NonBlank(m.content, space);
    }
    if NonBlank(m.content, space) {
      var k :| 0 <= k < |m.content| && !space(m.content[k]);
      assert m.content[k] in m.content;
    }
    forall k | 0 <= k < |sources| ensures IsId(sources[k], ids) <==> m.sources[k] in ids {}
    if MergedShape(j, ids, space) {
      forall k | 0 <= k < |sources| ensures m.sources[k] in ids { assert sources[k] in sources; }
      assert OneMerged(j, ids, space).sources == m.sources;
    }
    if SaneMerged(m, ids, space) {
      forall k | 0 <= k < |sources| ensures IsId(sources[k], ids) { assert m.sources[k] in m.sources; }
    }
  }

  lemma MergedIsSpelled(j: Json, ids: set<string>, space: char -> bool)
    requires MergedShape(j, ids, space)
    ensures SpellsMerged(j, OneMerged(j, ids, space))
  {
    var sources, m := Field(j, "sources").items, OneMerged(j, ids, space);
    assert Field(j, "content") == Str(m.content);
    forall k | 0 <= k < |sources| ensures sources[k] == Str(m.sources[k]) { assert sources[k] in sources; }
  }

  /** A compaction that spells some items is taken exactly when there are any and all are sane. */
  lemma SpelledCompactionAccepted(data: Json, merged: seq<Merged>, ids: set<string>, space: char -> bool)
    requires SpellsCompaction(data, merged)
    ensures ValidCompaction(data, ids, space) <==>
            merged != [] && forall k | 0 <= k < |merged| :: SaneMerged(merged[k], ids, space)
    ensures ValidCompaction(data, ids, space) ==> MergedOf(data.items, ids, space) == merged
  {
    forall k | 0 <= k < |merged|
      ensures MergedShape(data.items[k], ids, space) <==> SaneMerged(merged[k], ids, space)
      ensures MergedShape(data.items[k], ids, space) ==> OneMerged(data.items[k], ids, space) == merged[k]
    {
      SpelledMergedShape(data.items[k], merged[k], ids, space);
    }
    if ValidCompaction(data, ids, space) {
      forall k | 0 <= k < |merged| ensures MergedShape(data.items[k], ids, space) { assert data.items[k] in data.items; }
      assert MergedOf(data.items, ids, space) == merged;
    }
  }

  /** Exactly the outputs that spell some items, all of them sane, are taken. */
  lemma CompactionAcceptedIff(data: Json, ids: set<string>, space: char -> bool)
    ensures ValidCompaction(data, ids, space) <==>
            exists merged :: SpellsCompaction(data, merged) && merged != [] &&
              forall k | 0 <= k < |merged| :: SaneMerged(merged[k], ids, space)
  {
    if ValidCompaction(data, ids, space) {
      var merged := MergedOf(data.items, ids, space);
      forall k | 0 <= k < |merged| ensures SpellsMerged(data.items[k], merged[k]) {
        assert data.items[k] in data.items;
        MergedIsSpelled(data.items[k], ids, space);
      }
      assert SpellsCompaction(data, merged);
      SpelledCompactionAccepted(data, merged, ids, space);
    }
    if merged :| SpellsCompaction(data, merged) && merged != [] && forall k | 0 <= k < |merged| :: SaneMerged(merged[k], ids, space) {
      SpelledCompactionAccepted(data, merged, ids, space);
    }
  }
}
