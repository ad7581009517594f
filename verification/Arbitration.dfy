/** One conflict resolution: the clusters of a snapshot are arbitrated and the decisions committed. */
module Arbitration {
  import opened Ordering
  import opened Entries
  import opened Optional
  import opened Maintenance
  import opened MaintainerOutput

  predicate ClustersFit(snapshot: seq<Entry>, clusters: seq<seq<nat>>) {
    forall c, i | c in clusters && i in c :: i < |snapshot|
  }

  function ClusterIds(snapshot: seq<Entry>, cluster: seq<nat>): (ids: set<string>)
    requires forall i | i in cluster :: i < |snapshot|
    ensures ids <= IdsOf(snapshot)
  {
    set i | i in cluster :: snapshot[i].id
  }

  /** The groups of every cluster whose reply is valid for that cluster; a reply is absent when the call or the decoding
      failed. */
  ghost function AcceptedGroups(snapshot: seq<Entry>, clusters: seq<seq<nat>>, replies: seq<Option<Json>>): seq<Group>
    requires ClustersFit(snapshot, clusters) && |replies| == |clusters|
  {
    if clusters == [] then []
    else
      var n := |clusters| - 1;
      assert clusters[n] in clusters;
      AcceptedGroups(snapshot, clusters[..n], replies[..n]) + GroupsIn(replies[n], ClusterIds(snapshot, clusters[n]))
  }

  ghost function GroupsIn(reply: Option<Json>, ids: set<string>): seq<Group> {
    if reply.Some? && ValidConflicts(reply.value, ids) then GroupsOf(Field(reply.value, "groups").items, ids) else []
  }

  method Arbitrate(snapshot: seq<Entry>, clusters: seq<seq<nat>>, replies: seq<Option<Json>>) returns (groups: seq<Group>)
    requires ClustersFit(snapshot, clusters) && |replies| == |clusters|
    ensures groups == AcceptedGroups(snapshot, clusters, replies)
  {
    groups := [];
    for k := 0 to |clusters|
      invariant groups == AcceptedGroups(snapshot, clusters[..k], replies[..k])
    {
      assert clusters[..k + 1][..k] == clusters[..k] && replies[..k + 1][..k] == replies[..k];
      assert clusters[k] in clusters;
      var parsed := ParseConflictOutput(replies[k], ClusterIds(snapshot, clusters[k]));
      if parsed.Some? {
        groups := groups + parsed.value;
      } else {
        assert groups + [] == groups;
      }
    }
    assert clusters[..|clusters|] == clusters && replies[..|replies|] == replies;
  }

  /** Whatever the model replies, an accepted decision only names entries of the snapshot. */
  lemma {:induction false} DecisionsNameSnapshot(snapshot: seq<Entry>, clusters: seq<seq<nat>>, replies: seq<Option<Json>>)
    requires ClustersFit(snapshot, clusters) && |replies| == |clusters|
    ensures forall g | g in AcceptedGroups(snapshot, clusters, replies) ::
              g.winner in IdsOf(snapshot) && g.losers != [] && forall l | l in g.losers :: l in IdsOf(snapshot)
    decreases |clusters|
  {
    if clusters != [] {
      var n := |clusters| - 1;
      assert clusters[n] in clusters;
      DecisionsNameSnapshot(snapshot, clusters[..n], replies[..n]);
      GroupsNameIds(replies[n], ClusterIds(snapshot, clusters[n]));
    }
  }

  lemma GroupsNameIds(reply: Option<Json>, ids: set<string>)
    ensures forall g | g in GroupsIn(reply, ids) :: g.winner in ids && g.losers != [] && forall l | l in g.losers :: l in ids
  {
    var groups := GroupsIn(reply, ids);
    forall g | g in groups ensures g.winner in ids && g.losers != [] && forall l | l in g.losers :: l in ids {
      var k :| 0 <= k < |groups| && groups[k] == g;
      ValidGroupsAreSane(reply.value, ids, k);
    }
  }

  lemma {:induction false} LosersAreNamed(groups: seq<Group>, ids: set<string>)
    requires forall g, l | g in groups && l in g.losers :: l in ids
    ensures LosersOf(groups) <= ids
    decreases |groups|
  {
    if groups != [] {
      var init, last := groups[..|groups| - 1], groups[|groups| - 1];
      assert last in groups;
      LosersAreNamed(init, ids);
      assert forall l | l in LosersOf(groups) :: l in AllLosers(init) || l in last.losers;
    }
  }

  /** The stores after the arbitrated groups have been committed, or not. */
  ghost function AfterResolution(s: Stores, snapshot: seq<Entry>, clusters: seq<seq<nat>>, replies: seq<Option<Json>>): Stores
    requires ClustersFit(snapshot, clusters) && |replies| == |clusters|
  {
    var groups := AcceptedGroups(snapshot, clusters, replies);
    AfterConflict(s, snapshot, LosersOf(groups), WinnersOf(groups))
  }

  lemma NobodyLoses(s: Stores, snapshot: seq<Entry>, losers: set<string>, winners: set<string>)
    requires losers == {}
    ensures AfterConflict(s, snapshot, losers, winners) == s
  {
    RejectNone(s.active, Loses(losers));
    assert s.archive + [] == s.archive;
  }

  /** From the replies to the commit. */
  method ResolveConflicts(store: MemoryStore, snapshot: seq<Entry>, clusters: seq<seq<nat>>, replies: seq<Option<Json>>) returns (moved: nat)
    requires ClustersFit(snapshot, clusters) && |replies| == |clusters|
    modifies store
    ensures View(store) == AfterResolution(old(View(store)), snapshot, clusters, replies)
    ensures moved == |store.archive| - |old(store.archive)|
  {
    var groups := Arbitrate(snapshot, clusters, replies);
    var losers, winners := CollectDecisions(groups);
    if losers == {} {
      NobodyLoses(View(store), snapshot, losers, winners);
      return 0;
    }
    moved := ApplyConflictResults(store, snapshot, losers, winners);
  }

  /** Only entries with an id of the snapshot leave the active store; if no correction has one, no correction leaves. */
  lemma ResolutionKeepsCorrections(s: Stores, snapshot: seq<Entry>, clusters: seq<seq<nat>>, replies: seq<Option<Json>>)
    requires ClustersFit(snapshot, clusters) && |replies| == |clusters|
    ensures forall e | e in s.active && e !in AfterResolution(s, snapshot, clusters, replies).active :: e.id in IdsOf(snapshot)
    ensures IdsOf(Corrections(s.active)) !! IdsOf(snapshot) ==>
              Corrections(AfterResolution(s, snapshot, clusters, replies).active) == Corrections(s.active)
  {
    var groups := AcceptedGroups(snapshot, clusters, replies);
    DecisionsNameSnapshot(snapshot, clusters, replies);
    LosersAreNamed(groups, IdsOf(snapshot));
    ConflictKeepsCorrections(s, snapshot, LosersOf(groups), WinnersOf(groups));
    if IdsOf(Corrections(s.active)) !! IdsOf(snapshot) {
      forall e | e in s.active && e.IsCorrection() ensures e.id !in LosersOf(groups) {
        assert e in Corrections(s.active) && e.id in IdsOf(Corrections(s.active));
      }
    }
  }

  // ---- A correction that leaves all the same ----

  const OLD := Entry("x", "uses redis", 0, 0, 0, "user", 1.0, "general", "none", "")
  const NEW := Entry("y", "uses postgres", 1, 1, 0, "user", 1.0, "general", "none", "")
  const CORRECTION := OLD.(entryType := "correction")
  const REPLY := Obj(map["groups" := Arr([Obj(map["winner_id" := Str("y"), "loser_ids" := Arr([Str("x")])])])])

  lemma ReplyNames(ids: set<string>)
    requires ids == {"x", "y"}
    ensures ValidConflicts(REPLY, ids) && GroupsIn(Some(REPLY), ids) == [Group("y", ["x"])]
  {
    var item := Obj(map["winner_id" := Str("y"), "loser_ids" := Arr([Str("x")])]);
    assert Field(REPLY, "groups").items == [item];
    assert "x"[0] != "y"[0];
    assert GroupShape(item, ids);
    assert Strings([Str("x")]) == ["x"];
    var groups := GroupsOf([item], ids);
    assert groups[0] == GroupOf(item, ids);
    assert groups == [Group("y", ["x"])] && groups[..0] == [];
    assert AllLosers(groups) == [] + ["x"] == ["x"];
  }

  lemma OneReply(snapshot: seq<Entry>)
    requires snapshot == [OLD, NEW]
    ensures AcceptedGroups(snapshot, [[0, 1]], [Some(REPLY)]) == [Group("y", ["x"])]
  {
    var clusters: seq<seq<nat>>, replies := [[0, 1]], [Some(REPLY)];
    assert ClusterIds(snapshot, clusters[0]) == {"x", "y"} by {
      assert 0 in clusters[0] && 1 in clusters[0];
    }
    ReplyNames({"x", "y"});
    assert clusters[..0] == [] && replies[..0] == [];
    assert AcceptedGroups(snapshot, clusters, replies) == [] + [Group("y", ["x"])];
  }

  lemma OneDecision(groups: seq<Group>)
    requires groups == [Group("y", ["x"])]
    ensures LosersOf(groups) == {"x"} && WinnersOf(groups) == {"y"}
  {
    assert groups[..0] == [];
    assert AllLosers(groups) == [] + ["x"] == ["x"];
    assert "x" in groups[0].losers && "x" !in LosersOf(groups[..0]);
  }

  lemma FilterThree<T(!new)>(a: T, b: T, c: T, p: T -> bool)
    ensures var rest := if p(c) then [c] else [];
            var more := if p(b) then [b] + rest else rest;
            Filter([a, b, c], p) == if p(a) then [a] + more else more
  {
    assert [a, b, c] == [a] + [b, c] && [b, c] == [b] + [c];
    FilterCons(a, [b, c], p);
    FilterCons(b, [c], p);
    FilterOne(c, p);
  }

  lemma RejectThree<T(!new)>(a: T, b: T, c: T, p: T -> bool)
    ensures var rest := if p(c) then [] else [c];
            var more := if p(b) then rest else [b] + rest;
            Reject([a, b, c], p) == if p(a) then more else [a] + more
  {
    assert [a, b, c] == [a] + [b, c] && [b, c] == [b] + [c];
    FilterCons(a, [b, c], p);
    FilterCons(b, [c], p);
    FilterOne(c, p);
  }

  lemma LookUpsFind()
    ensures ById([OLD, NEW], "x") == Some(OLD) && ById([OLD, NEW], "y") == Some(NEW)
    ensures ById([OLD, NEW, CORRECTION], "x") == Some(CORRECTION) && ById([OLD, NEW, CORRECTION], "y") == Some(NEW)
  {
    assert "x"[0] != "y"[0];
    assert [OLD, NEW][..1] == [OLD] && [OLD, NEW, CORRECTION][..2] == [OLD, NEW];
  }

  lemma SplitByLosers(active: seq<Entry>, losers: set<string>)
    requires active == [OLD, NEW, CORRECTION] && losers == {"x"}
    ensures Reject(active, Loses(losers)) == [NEW]
    ensures Filter(active, Loses(losers)) == [OLD, CORRECTION]
  {
    assert "x"[0] != "y"[0];
    var lost := Loses(losers);
    assert lost(OLD) && !lost(NEW) && lost(CORRECTION);
    FilterThree(OLD, NEW, CORRECTION, lost);
    RejectThree(OLD, NEW, CORRECTION, lost);
  }

  lemma BothLeave(s: Stores, losers: set<string>, winners: set<string>)
    requires s == Stores([OLD, NEW, CORRECTION], [], []) && losers == {"x"} && winners == {"y"}
    ensures AfterConflict(s, [OLD, NEW], losers, winners) == Stores([NEW], [OLD, CORRECTION], [])
  {
    LookUpsFind();
    SplitByLosers(s.active, losers);
    assert [] + [OLD, CORRECTION] == [OLD, CORRECTION];
  }

  lemma KindsApart(active: seq<Entry>)
    requires active == [OLD, NEW, CORRECTION]
    ensures Corrections(active) == [CORRECTION] && Ordinary(active) == [OLD, NEW]
  {
    FilterThree(OLD, NEW, CORRECTION, (e: Entry) => e.IsCorrection());
    FilterThree(OLD, NEW, CORRECTION, (e: Entry) => !e.IsCorrection());
  }

  /** A correction stored under the id and the content of an ordinary entry is archived with it. */
  lemma SharedIdTakesCorrection(s: Stores)
    requires s == Stores([OLD, NEW, CORRECTION], [], [])
    ensures Corrections(s.active) == [CORRECTION] && Ordinary(s.active) == [OLD, NEW]
    ensures AfterResolution(s, [OLD, NEW], [[0, 1]], [Some(REPLY)]) == Stores([NEW], [OLD, CORRECTION], [])
  {
    KindsApart(s.active);
    OneReply([OLD, NEW]);
    var groups := AcceptedGroups([OLD, NEW], [[0, 1]], [Some(REPLY)]);
    OneDecision(groups);
    BothLeave(s, LosersOf(groups), WinnersOf(groups));
  }
}
