/** Validation of what the model returns to the maintainer, after JSON decoding. */
module MaintainerOutput {
  import opened Entries
  import opened Ordering
  import opened Optional

  datatype Json =
    | Null
    | Bool(b: bool)
    | Int(n: int)
    | Real(r: real)
    | Str(s: string)
    | Arr(items: seq<Json>)
    | Obj(fields: map<string, Json>)

  datatype Group = Group(winner: string, losers: seq<string>)
  datatype Merged = Merged(content: string, sources: seq<string>)

  function Field(j: Json, name: string): Json {
    if j.Obj? && name in j.fields then j.fields[name] else Null
  }

  // ---- Conflict arbitration ----

  predicate IsId(j: Json, ids: set<string>) {
    j.Str? && j.s in ids
  }

  ghost predicate GroupShape(g: Json, ids: set<string>) {
    && g.Obj?
    && IsId(Field(g, "winner_id"), ids)
    && Field(g, "loser_ids").Arr?
    && Field(g, "loser_ids").items != []
    && forall l | l in Field(g, "loser_ids").items :: IsId(l, ids) && l != Field(g, "winner_id")
  }

  ghost function Strings(js: seq<Json>): (r: seq<string>)
    requires forall j | j in js :: j.Str?
    ensures |r| == |js| && forall k | 0 <= k < |js| :: r[k] == js[k].s
  {
    seq(|js|, k requires 0 <= k < |js| => js[k].s)
  }

  ghost function GroupOf(g: Json, ids: set<string>): Group
    requires GroupShape(g, ids)
  {
    Group(Field(g, "winner_id").s, Strings(Field(g, "loser_ids").items))
  }

  ghost function GroupsOf(items: seq<Json>, ids: set<string>): seq<Group>
    requires forall g | g in items :: GroupShape(g, ids)
  {
    seq(|items|, k requires 0 <= k < |items| => GroupOf(items[k], ids))
  }

  function AllLosers(groups: seq<Group>): seq<string> {
    if groups == [] then [] else AllLosers(groups[..|groups| - 1]) + groups[|groups| - 1].losers
  }

  /** Well-shaped groups in which nobody loses twice and nobody beats itself. */
  ghost predicate ValidConflicts(data: Json, ids: set<string>) {
    && data.Obj? && Field(data, "groups").Arr?
    && (forall g | g in Field(data, "groups").items :: GroupShape(g, ids))
    && Distinct(AllLosers(GroupsOf(Field(data, "groups").items, ids)))
  }

  lemma {:induction false} LosersPrefix(groups: seq<Group>, k: nat)
    requires k <= |groups|
    ensures AllLosers(groups[..k]) <= AllLosers(groups)
    decreases |groups|
  {
    if k < |groups| {
      var init := groups[..|groups| - 1];
      LosersPrefix(init, k);
      assert init[..k] == groups[..k];
    } else {
      assert groups[..k] == groups;
    }
  }

  /** One group's losers are acceptable after the losers already seen. */
  ghost predicate LosersFresh(losers: seq<Json>, winner: Json, ids: set<string>, seen: set<string>) {
    && (forall l | l in losers :: IsId(l, ids) && l != winner && l.s !in seen)
    && Distinct(losers)
  }

  method CheckLosers(losers: seq<Json>, winner: Json, ids: set<string>, seen: set<string>)
      returns (ok: bool, seen': set<string>, names: seq<string>)
    requires winner.Str?
    ensures ok <==> LosersFresh(losers, winner, ids, seen)
    ensures ok ==> names == Strings(losers) && seen' == seen + set n | n in names
  {
    seen', names := seen, [];
    for k := 0 to |losers|
      invariant LosersFresh(losers[..k], winner, ids, seen)
      invariant names == Strings(losers[..k])
      invariant seen' == seen + set n | n in names
    {
      var lid := losers[k];
      if !lid.Str? || lid.s !in ids {
        return false, seen', names;
      }
      if lid == winner || lid.s in seen' {
        assert lid == winner || lid.s in seen || lid in losers[..k] by {
          if lid.s in names {
            var m :| 0 <= m < |names| && names[m] == lid.s;
            assert losers[..k][m] == lid;
          }
        }
        return false, seen', names;
      }
      seen', names := seen' + {lid.s}, names + [lid.s];
      assert losers[..k + 1] == losers[..k] + [lid];
    }
    assert losers[..|losers|] == losers;
    ok := true;
  }

  /** Accepts exactly the valid outputs and returns their groups; `data` is absent when decoding failed. */
  method ParseConflictOutput(data: Option<Json>, ids: set<string>) returns (r: Option<seq<Group>>)
    ensures r.Some? <==> data.Some? && ValidConflicts(data.value, ids)
    ensures r.Some? ==> r.value == GroupsOf(Field(data.value, "groups").items, ids)
  {
    if data.None? || !data.value.Obj? || !Field(data.value, "groups").Arr? {
      return None;
    }
    var items := Field(data.value, "groups").items;
    var cleaned: seq<Group>, seen := [], {};
    for k := 0 to |items|
      invariant forall g | g in items[..k] :: GroupShape(g, ids)
      invariant cleaned == GroupsOf(items[..k], ids)
      invariant Distinct(AllLosers(cleaned)) && seen == set l | l in AllLosers(cleaned)
    {
      var g := items[k];
      var winner, losers := Field(g, "winner_id"), Field(g, "loser_ids");
      if !g.Obj? || !IsId(winner, ids) || !losers.Arr? || losers.items == [] {
        assert !GroupShape(items[k], ids);
        return None;
      }
      var ok, seen', names := CheckLosers(losers.items, winner, ids, seen);
      if !ok {
        if ValidConflicts(data.value, ids) {
          assert items[k] in items;
          AcceptedGroupFresh(items, ids, k);
          assert false;
        }
        return None;
      }
      assert items[..k + 1] == items[..k] + [g];
      ghost var before := cleaned;
      cleaned, seen := cleaned + [Group(winner.s, names)], seen';
      assert cleaned[..|cleaned| - 1] == before;
      NamesDistinct(losers.items);
    }
    assert items[..|items|] == items;
    r := Some(cleaned);
  }

  lemma NamesDistinct(js: seq<Json>)
    requires forall j | j in js :: j.Str?
    ensures Distinct(js) <==> Distinct(Strings(js))
  {
    forall x, y | 0 <= x < y < |js| ensures js[x] != js[y] <==> Strings(js)[x] != Strings(js)[y] {
      assert js[x] == Str(js[x].s) && js[y] == Str(js[y].s);
    }
  }

  lemma DistinctPieces<T>(prev: seq<T>, mine: seq<T>, whole: seq<T>)
    requires Distinct(whole) && prev + mine <= whole
    ensures Distinct(mine) && forall k | 0 <= k < |mine| :: mine[k] !in prev
  {
    forall x, y | 0 <= x < y < |mine| ensures mine[x] != mine[y] {
      assert whole[|prev| + x] == mine[x] && whole[|prev| + y] == mine[y];
    }
    forall k, x | 0 <= k < |mine| && 0 <= x < |prev| ensures mine[k] != prev[x] {
      assert whole[|prev| + k] == mine[k] && whole[x] == prev[x];
    }
  }

  lemma LosersSnoc(groups: seq<Group>, k: nat)
    requires k < |groups|
    ensures AllLosers(groups[..k + 1]) == AllLosers(groups[..k]) + groups[k].losers
  {
    assert groups[..k + 1][..k] == groups[..k];
  }

  lemma AcceptedGroupFresh(items: seq<Json>, ids: set<string>, k: nat)
    requires k < |items| && forall g | g in items :: GroupShape(g, ids)
    requires Distinct(AllLosers(GroupsOf(items, ids))) && GroupShape(items[k], ids)
    ensures var seen := set l | l in AllLosers(GroupsOf(items[..k], ids));
            LosersFresh(Field(items[k], "loser_ids").items, Field(items[k], "winner_id"), ids, seen)
  {
    var all, losers := GroupsOf(items, ids), Field(items[k], "loser_ids").items;
    LosersPrefix(all, k + 1);
    LosersSnoc(all, k);
    assert all[..k] == GroupsOf(items[..k], ids);
    DistinctPieces(AllLosers(all[..k]), all[k].losers, AllLosers(all));
    NamesDistinct(losers);
    forall l | l in losers ensures l.s !in AllLosers(all[..k]) {
      var m :| 0 <= m < |losers| && losers[m] == l;
      assert all[k].losers[m] == l.s;
    }
  }

  /** What accepting guarantees: every named id is valid and no group's winner is among its own losers. */
  lemma ValidGroupsAreSane(data: Json, ids: set<string>, k: nat)
    requires ValidConflicts(data, ids) && k < |Field(data, "groups").items|
    ensures var g := GroupsOf(Field(data, "groups").items, ids)[k];
            g.winner in ids && g.winner !in g.losers && g.losers != [] && forall l | l in g.losers :: l in ids
  {
    var item := Field(data, "groups").items[k];
    assert item in Field(data, "groups").items;
    var g := GroupOf(item, ids);
    forall l | l in g.losers ensures l in ids && l != g.winner {
      var m :| 0 <= m < |g.losers| && g.losers[m] == l;
      assert Field(item, "loser_ids").items[m] in Field(item, "loser_ids").items;
      assert Field(item, "winner_id") == Str(g.winner) && Field(item, "loser_ids").items[m] == Str(l);
    }
  }

  function LosersOf(groups: seq<Group>): set<string> {
    set l | l in AllLosers(groups)
  }

  /** The winners that are recorded: those of the groups that name a new loser. */
  function WinnersOf(groups: seq<Group>): set<string> {
    if groups == [] then {}
    else
      var init, g := groups[..|groups| - 1], groups[|groups| - 1];
      WinnersOf(init) + if exists l :: l in g.losers && l !in LosersOf(init) then {g.winner} else {}
  }

  /** The losers and winners collected over all accepted groups. */
  method CollectDecisions(groups: seq<Group>) returns (losers: set<string>, winners: set<string>)
    ensures losers == LosersOf(groups) && winners == WinnersOf(groups)
  {
    losers, winners := {}, {};
    for k := 0 to |groups|
      invariant losers == LosersOf(groups[..k]) && winners == WinnersOf(groups[..k])
    {
      var g := groups[k];
      var newOnes := set l | l in g.losers && l !in losers;
      CollectOne(groups, k);
      if newOnes != {} {
        losers, winners := losers + newOnes, winners + {g.winner};
      }
    }
    assert groups[..|groups|] == groups;
  }

  lemma CollectOne(groups: seq<Group>, k: nat)
    requires k < |groups|
    ensures var before, g := groups[..k], groups[k];
            var newOnes := set l | l in g.losers && l !in LosersOf(before);
            && LosersOf(groups[..k + 1]) == LosersOf(before) + newOnes
            && WinnersOf(groups[..k + 1]) == WinnersOf(before) + (if newOnes != {} then {g.winner} else {})
  {
    var g := groups[k];
    var newOnes := set l | l in g.losers && l !in LosersOf(groups[..k]);
    LosersSnoc(groups, k);
    assert groups[..k + 1][..k] == groups[..k];
    if l :| l in g.losers && l !in LosersOf(groups[..k]) { assert l in newOnes; }
  }

  /** Every recorded winner won a group; and when nobody loses twice, no winner goes unrecorded. */
  lemma {:induction false} WinnersExact(groups: seq<Group>)
    requires forall g | g in groups :: g.losers != []
    ensures forall w | w in WinnersOf(groups) :: exists g :: g in groups && g.winner == w
    ensures Distinct(AllLosers(groups)) ==> forall g | g in groups :: g.winner in WinnersOf(groups)
    decreases |groups|
  {
    if groups != [] {
      var n := |groups| - 1;
      var init, last := groups[..n], groups[n];
      assert groups == init + [last] && last in groups;
      WinnersExact(init);
      forall w | w in WinnersOf(groups) ensures exists g :: g in groups && g.winner == w {
        if w in WinnersOf(init) {
          var g :| g in init && g.winner == w;
          assert g in groups;
        }
      }
      if Distinct(AllLosers(groups)) {
        LosersPrefix(groups, n);
        DistinctPieces(AllLosers(init), last.losers, AllLosers(groups));
        DistinctPrefix(AllLosers(init), AllLosers(groups));
        assert last.losers[0] in last.losers && last.losers[0] !in LosersOf(init);
      }
    }
  }

  lemma DistinctPrefix<T>(a: seq<T>, b: seq<T>)
    requires a <= b && Distinct(b)
    ensures Distinct(a)
  {
    forall x, y | 0 <= x < y < |a| ensures a[x] != a[y] {
      assert a[x] == b[x] && a[y] == b[y];
    }
  }

  const FIRST := Obj(map["winner_id" := Str("b"), "loser_ids" := Arr([Str("a")])])
  const SECOND := Obj(map["winner_id" := Str("c"), "loser_ids" := Arr([Str("b")])])
  const CHAINED := Obj(map["groups" := Arr([FIRST, SECOND])])

  /** Acceptance does not stop one group's winner ("b") from losing another group. */
  lemma WinnerMayLoseElsewhere()
    ensures ValidConflicts(CHAINED, {"a", "b", "c"})
    ensures GroupsOf(Field(CHAINED, "groups").items, {"a", "b", "c"}) == [Group("b", ["a"]), Group("c", ["b"])]
  {
    var ids, items := {"a", "b", "c"}, [FIRST, SECOND];
    assert GroupShape(FIRST, ids) && GroupShape(SECOND, ids);
    assert forall g | g in items :: g == FIRST || g == SECOND;
    var gs := GroupsOf(items, ids);
    assert gs[0] == GroupOf(FIRST, ids) && gs[1] == GroupOf(SECOND, ids);
    assert Strings([Str("a")]) == ["a"] && Strings([Str("b")]) == ["b"];
    assert gs == [Group("b", ["a"]), Group("c", ["b"])];
    ChainedLosers(gs);
  }

  lemma ChainedLosers(gs: seq<Group>)
    requires gs == [Group("b", ["a"]), Group("c", ["b"])]
    ensures AllLosers(gs) == ["a", "b"] && Distinct(AllLosers(gs))
  {
    assert gs[..1] == [gs[0]] && gs[..1][..0] == [];
    assert AllLosers(gs[..1]) == ["a"];
    assert "a"[0] != "b"[0];
  }

  // ---- Compaction ----

  // str.strip leaves something behind exactly when some character is not white space.
  predicate NonBlank(text: string, space: char -> bool) {
    exists k :: 0 <= k < |text| && !space(text[k])
  }

  /** Booleans are integers here, as in the decoder's language. */
  predicate NonNegativeInt(j: Json) {
    (j.Int? && j.n >= 0) || j.Bool?
  }

  ghost predicate MergedShape(item: Json, ids: set<string>, space: char -> bool) {
    && item.Obj?
    && Field(item, "content").Str? && NonBlank(Field(item, "content").s, space)
    && NonNegativeInt(Field(item, "hits"))
    && Field(item, "sources").Arr? && Field(item, "sources").items != []
    && forall s | s in Field(item, "sources").items :: IsId(s, ids)
  }

  ghost predicate ValidCompaction(data: Json, ids: set<string>, space: char -> bool) {
    data.Arr? && data.items != [] && forall item | item in data.items :: MergedShape(item, ids, space)
  }

  ghost function OneMerged(item: Json, ids: set<string>, space: char -> bool): Merged
    requires MergedShape(item, ids, space)
  {
    Merged(Field(item, "content").s, Strings(Field(item, "sources").items))
  }

  ghost function MergedOf(items: seq<Json>, ids: set<string>, space: char -> bool): seq<Merged>
    requires forall item | item in items :: MergedShape(item, ids, space)
  {
    seq(|items|, k requires 0 <= k < |items| => OneMerged(items[k], ids, space))
  }

  method ReadSources(items: seq<Json>, ids: set<string>) returns (ok: bool, sources: seq<string>)
    ensures ok <==> forall s | s in items :: IsId(s, ids)
    ensures ok ==> sources == Strings(items)
  {
    sources := [];
    for k := 0 to |items|
      invariant forall s | s in items[..k] :: IsId(s, ids)
      invariant sources == Strings(items[..k])
    {
      if !IsId(items[k], ids) {
        return false, sources;
      }
      sources := sources + [items[k].s];
      assert items[..k + 1] == items[..k] + [items[k]];
    }
    assert items[..|items|] == items;
    ok := true;
  }

  /** Accepts exactly the well-shaped outputs; nothing here looks at coverage or overlap of the sources. */
  method ParseCompactOutput(data: Option<Json>, ids: set<string>, space: char -> bool) returns (r: Option<seq<Merged>>)
    ensures r.Some? <==> data.Some? && ValidCompaction(data.value, ids, space)
    ensures r.Some? ==> r.value == MergedOf(data.value.items, ids, space)
  {
    if data.None? || !data.value.Arr? || data.value.items == [] {
      return None;
    }
    var items := data.value.items;
    var out: seq<Merged> := [];
    for k := 0 to |items|
      invariant forall item | item in items[..k] :: MergedShape(item, ids, space)
      invariant out == MergedOf(items[..k], ids, space)
    {
      var item := items[k];
      var content, hits, sources := Field(item, "content"), Field(item, "hits"), Field(item, "sources");
      if !item.Obj? || !content.Str? || !NonBlank(content.s, space) || !NonNegativeInt(hits)
         || !sources.Arr? || sources.items == [] {
        assert !MergedShape(items[k], ids, space);
        return None;
      }
      var ok, names := ReadSources(sources.items, ids);
      if !ok {
        assert !MergedShape(items[k], ids, space);
        return None;
      }
      out := out + [Merged(content.s, names)];
      assert items[..k + 1] == items[..k] + [item];
    }
    assert items[..|items|] == items;
    r := Some(out);
  }
}
