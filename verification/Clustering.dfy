/** Union-find clustering of memory entries whose token sets overlap enough. */
module Clustering {
  import opened Ordering

  /** Set-overlap ratio; 0 when either side is empty. */
  function Jaccard(a: set<string>, b: set<string>): real {
    if a == {} || b == {} then 0.0
    else
      assert a + b != {};
      (|a * b| as real) / (|a + b| as real)
  }

  lemma JaccardSymmetric(a: set<string>, b: set<string>)
    ensures Jaccard(a, b) == Jaccard(b, a)
  {
    assert a * b == b * a && a + b == b + a;
  }

  // ---- The similarity graph and its components (the specification) ----

  type Edges = set<(nat, nat)>

  ghost function SimilarPairs(tokens: seq<set<string>>, threshold: real): Edges {
    set i: nat, j: nat | i < j < |tokens| && Jaccard(tokens[i], tokens[j]) >= threshold :: (i, j)
  }

  ghost predicate Adjacent(e: Edges, a: nat, b: nat) {
    (a, b) in e || (b, a) in e
  }

  ghost predicate Walk(e: Edges, p: seq<nat>) {
    |p| > 0 && forall k | 0 < k < |p| :: Adjacent(e, p[k - 1], p[k])
  }

  /** `a` and `b` are joined by a chain of similar pairs. */
  ghost predicate Connected(e: Edges, a: nat, b: nat) {
    exists p :: Walk(e, p) && p[0] == a && p[|p| - 1] == b
  }

  lemma ConnectedRefl(e: Edges, a: nat)
    ensures Connected(e, a, a)
  {
    assert Walk(e, [a]);
  }

  lemma ConnectedEdge(e: Edges, a: nat, b: nat)
    requires Adjacent(e, a, b)
    ensures Connected(e, a, b)
  {
    var p := [a, b];
    assert Walk(e, p) && p[0] == a && p[|p| - 1] == b;
  }

  lemma ConnectedSym(e: Edges, a: nat, b: nat)
    requires Connected(e, a, b)
    ensures Connected(e, b, a)
  {
    var p :| Walk(e, p) && p[0] == a && p[|p| - 1] == b;
    var q := seq(|p|, k requires 0 <= k < |p| => p[|p| - 1 - k]);
    forall k | 0 < k < |q| ensures Adjacent(e, q[k - 1], q[k]) {
      assert Adjacent(e, p[|p| - 1 - k], p[|p| - k]);
    }
    assert Walk(e, q);
  }

  lemma ConnectedTrans(e: Edges, a: nat, b: nat, c: nat)
    requires Connected(e, a, b) && Connected(e, b, c)
    ensures Connected(e, a, c)
  {
    var p :| Walk(e, p) && p[0] == a && p[|p| - 1] == b;
    var q :| Walk(e, q) && q[0] == b && q[|q| - 1] == c;
    var w := p + q[1..];
    forall k | 0 < k < |w| ensures Adjacent(e, w[k - 1], w[k]) {
      if k < |p| {
        assert Adjacent(e, p[k - 1], p[k]);
      } else {
        assert Adjacent(e, q[k - |p|], q[k - |p| + 1]);
      }
    }
    assert Walk(e, w) && w[0] == a && w[|w| - 1] == c;
  }

  lemma ConnectedMono(e: Edges, f: Edges, a: nat, b: nat)
    requires e <= f && Connected(e, a, b)
    ensures Connected(f, a, b)
  {
    var p :| Walk(e, p) && p[0] == a && p[|p| - 1] == b;
    assert Walk(f, p);
  }

  /** A labelling that agrees along every edge agrees along every chain. */
  lemma WalkKeepsLabel(e: Edges, tag: seq<nat>, p: seq<nat>)
    requires Walk(e, p) && p[0] < |tag|
    requires forall a: nat, b: nat | Adjacent(e, a, b) :: a < |tag| && b < |tag| && tag[a] == tag[b]
    ensures p[|p| - 1] < |tag| && tag[p[|p| - 1]] == tag[p[0]]
    decreases |p|
  {
    if |p| > 1 {
      var q := p[..|p| - 1];
      assert Walk(e, q);
      WalkKeepsLabel(e, tag, q);
      assert Adjacent(e, p[|p| - 2], p[|p| - 1]);
    }
  }

  /** The clusters are exactly the connected components with two or more members. */
  ghost predicate IsComponentList(e: Edges, n: nat, clusters: seq<seq<nat>>) {
    && (forall c | c in clusters :: |c| >= 2 && Ascending(c) && forall i | i in c :: i < n)
    && (forall c, i: nat, j: nat | c in clusters && i in c && j < n :: j in c <==> Connected(e, i, j))
    && (forall i: nat, j: nat | i < n && j < n && i != j && Connected(e, i, j) :: exists c :: c in clusters && i in c)
    && HeadsAscend(clusters)
  }

  /** Every list is non-empty and their first items increase. */
  ghost predicate HeadsAscend(cs: seq<seq<nat>>) {
    && (forall x | 0 <= x < |cs| :: cs[x] != [])
    && (forall x, y | 0 <= x < y < |cs| :: cs[x][0] < cs[y][0])
  }

  ghost predicate Ascending(s: seq<nat>) {
    forall i, j | 0 <= i < j < |s| :: s[i] < s[j]
  }

  lemma AscendingEqual(s: seq<nat>, t: seq<nat>)
    requires Ascending(s) && Ascending(t)
    requires forall x :: x in s <==> x in t
    ensures s == t
    decreases |s|
  {
    assert t == [] || t[0] in t;
    if s != [] {
      assert s[0] in t && t != [];
      assert t[0] in s;
      assert s[0] == t[0];
      forall x ensures x in s[1..] <==> x in t[1..] {
        if x in s[1..] { assert x in s && x != s[0]; }
        if x in t[1..] { assert x in t && x != t[0]; }
      }
      AscendingEqual(s[1..], t[1..]);
      assert s == [s[0]] + s[1..] && t == [t[0]] + t[1..];
    }
  }

  /** No index belongs to two different clusters. */
  lemma ClustersDisjoint(e: Edges, n: nat, clusters: seq<seq<nat>>, x: nat, y: nat, i: nat)
    requires IsComponentList(e, n, clusters)
    requires x < |clusters| && y < |clusters| && i in clusters[x] && i in clusters[y]
    ensures x == y
  {
    forall j ensures j in clusters[x] <==> j in clusters[y] {
      if j in clusters[x] { assert j < n; }
      if j in clusters[y] { assert j < n; }
    }
    AscendingEqual(clusters[x], clusters[y]);
  }

  // ---- The parent array ----

  /** `root` and `level` witness that following parents climbs a forest. */
  ghost predicate Forest(parent: seq<nat>, root: seq<nat>, level: seq<nat>) {
    && |root| == |level| == |parent|
    && (forall x {:trigger root[x]} | 0 <= x < |parent| :: root[x] < |parent| && parent[root[x]] == root[x])
    && (forall x {:trigger parent[x]} | 0 <= x < |parent| ::
          && parent[x] < |parent|
          && root[parent[x]] == root[x]
          && (parent[x] == x ==> root[x] == x)
          && (parent[x] != x ==> level[parent[x]] < level[x]))
  }

  /** The element reached after following `k` parent links. */
  ghost function Climb(parent: seq<nat>, x: nat, k: nat): nat
    decreases k
  {
    if k == 0 || x >= |parent| then x else Climb(parent, parent[x], k - 1)
  }

  lemma {:induction false} ClimbReachesRoot(parent: seq<nat>, root: seq<nat>, level: seq<nat>, x: nat, k: nat)
    requires Forest(parent, root, level) && x < |parent| && level[x] <= k
    ensures Climb(parent, x, k) == root[x]
    decreases k
  {
    if k > 0 {
      if parent[x] == x {
        ClimbReachesRoot(parent, root, level[x := 0], x, k - 1);
      } else {
        ClimbReachesRoot(parent, root, level, parent[x], k - 1);
      }
    }
  }

  /** The roots are a property of the parent array alone, whatever witnesses its shape. */
  lemma RootsDetermined(parent: seq<nat>, root: seq<nat>, level: seq<nat>, root': seq<nat>, level': seq<nat>)
    requires Forest(parent, root, level) && Forest(parent, root', level')
    ensures root == root'
  {
    forall x: nat | x < |parent| ensures root[x] == root'[x] {
      ClimbReachesRoot(parent, root, level, x, level[x] + level'[x]);
      ClimbReachesRoot(parent, root', level', x, level[x] + level'[x]);
    }
  }

  /** One path-halving step leaves every element's root where it was. */
  lemma HalvingKeepsRoots(parent: seq<nat>, root: seq<nat>, level: seq<nat>, x: nat)
    requires Forest(parent, root, level) && x < |parent| && parent[x] != x
    ensures parent[parent[x]] < |parent|
    ensures Forest(parent[x := parent[parent[x]]], root, level)
    ensures level[parent[parent[x]]] < level[x]
  {
  }

  /** Follows parents to the root, halving the path on the way. */
  method Find(parent: array<nat>, start: nat, ghost root: seq<nat>, ghost level: seq<nat>) returns (r: nat)
    requires start < parent.Length && Forest(parent[..], root, level)
    modifies parent
    ensures Forest(parent[..], root, level)
    ensures r == root[start] && parent[r] == r
  {
    var x: nat := start;
    while parent[x] != x
      invariant x < parent.Length && Forest(parent[..], root, level) && root[x] == root[start]
      decreases level[x]
    {
      HalvingKeepsRoots(parent[..], root, level, x);
      ghost var before := parent[..];
      parent[x] := parent[parent[x]];
      assert parent[..] == before[x := before[before[x]]];
      x := parent[x];
    }
    r := x;
  }

  ghost function JoinedRoots(root: seq<nat>, rx: nat, ry: nat): seq<nat> {
    seq(|root|, i requires 0 <= i < |root| => if root[i] == rx then ry else root[i])
  }

  lemma LinkKeepsForest(parent: seq<nat>, root: seq<nat>, level: seq<nat>, rx: nat, ry: nat) returns (level': seq<nat>)
    requires Forest(parent, root, level) && rx < |parent| && ry < |parent| && rx != ry
    requires root[rx] == rx && root[ry] == ry
    ensures Forest(parent[rx := ry], JoinedRoots(root, rx, ry), level')
  {
    level' := seq(|level|, i requires 0 <= i < |level| => if root[i] == rx then level[i] + level[ry] + 1 else level[i]);
  }

  /** Merges the two trees; the roots change exactly as the join says. */
  method Union(parent: array<nat>, x: nat, y: nat, ghost root: seq<nat>, ghost level: seq<nat>)
      returns (ghost root': seq<nat>, ghost level': seq<nat>)
    requires x < parent.Length && y < parent.Length && Forest(parent[..], root, level)
    modifies parent
    ensures Forest(parent[..], root', level')
    ensures root' == JoinedRoots(root, root[x], root[y])
  {
    var rx := Find(parent, x, root, level);
    var ry := Find(parent, y, root, level);
    root', level' := root, level;
    if rx != ry {
      ghost var before := parent[..];
      level' := LinkKeepsForest(parent[..], root, level, rx, ry);
      parent[rx] := ry;
      assert parent[..] == before[rx := ry];
      root' := JoinedRoots(root, rx, ry);
    } else {
      assert root' == JoinedRoots(root, rx, ry);
    }
  }

  /** Equal roots mean connected through the edges seen so far, and conversely. */
  ghost predicate Represents(root: seq<nat>, e: Edges) {
    && (forall a: nat, b: nat | Adjacent(e, a, b) :: a < |root| && b < |root| && root[a] == root[b])
    && (forall a: nat, b: nat | a < |root| && b < |root| && root[a] == root[b] :: Connected(e, a, b))
  }

  lemma RepresentsExactly(root: seq<nat>, e: Edges, a: nat, b: nat)
    requires Represents(root, e) && a < |root| && b < |root|
    ensures root[a] == root[b] <==> Connected(e, a, b)
  {
    if Connected(e, a, b) {
      var p :| Walk(e, p) && p[0] == a && p[|p| - 1] == b;
      WalkKeepsLabel(e, root, p);
    }
  }

  lemma JoinRepresents(root: seq<nat>, e: Edges, i: nat, j: nat)
    requires Represents(root, e) && i < |root| && j < |root|
    ensures Represents(JoinedRoots(root, root[i], root[j]), e + {(i, j)})
  {
    var root' := JoinedRoots(root, root[i], root[j]);
    var f := e + {(i, j)};
    forall a: nat, b: nat | Adjacent(f, a, b)
      ensures a < |root'| && b < |root'| && root'[a] == root'[b]
    {
      assert Adjacent(e, a, b) || (a == i && b == j) || (a == j && b == i);
    }
    forall a: nat, b: nat | a < |root'| && b < |root'| && root'[a] == root'[b]
      ensures Connected(f, a, b)
    {
      assert Adjacent(f, i, j);
      ConnectedEdge(f, i, j);
      ConnectedSym(f, i, j);
      if root[a] == root[b] {
        ConnectedMono(e, f, a, b);
      } else if root[a] == root[i] {
        assert root[b] == root[j];
        ConnectedMono(e, f, a, i); ConnectedMono(e, f, j, b);
        ConnectedTrans(f, a, i, j); ConnectedTrans(f, a, j, b);
      } else {
        assert root[b] == root[i] && root[a] == root[j];
        ConnectedMono(e, f, a, j); ConnectedMono(e, f, i, b);
        ConnectedTrans(f, a, j, i); ConnectedTrans(f, a, i, b);
      }
    }
  }

  // ---- Grouping by root, in order of first appearance ----

  ghost function Members(root: seq<nat>, r: nat, upTo: nat): seq<nat>
    requires upTo <= |root|
  {
    if upTo == 0 then []
    else Members(root, r, upTo - 1) + (if root[upTo - 1] == r then [upTo - 1] else [])
  }

  ghost function RootsSeen(root: seq<nat>, upTo: nat): seq<nat>
    requires upTo <= |root|
  {
    if upTo == 0 then []
    else
      var seen := RootsSeen(root, upTo - 1);
      if root[upTo - 1] in seen then seen else seen + [root[upTo - 1]]
  }

  lemma {:induction false} MembersExact(root: seq<nat>, r: nat, upTo: nat)
    requires upTo <= |root|
    ensures Ascending(Members(root, r, upTo))
    ensures forall i: nat :: i in Members(root, r, upTo) <==> i < upTo && root[i] == r
  {
    if upTo > 0 {
      MembersExact(root, r, upTo - 1);
      var prev := Members(root, r, upTo - 1);
      forall k | 0 <= k < |prev| ensures prev[k] < upTo - 1 { assert prev[k] in prev; }
    }
  }

  ghost function Groups(root: seq<nat>, keys: seq<nat>, upTo: nat): seq<seq<nat>>
    requires upTo <= |root|
  {
    seq(|keys|, k requires 0 <= k < |keys| => Members(root, keys[k], upTo))
  }

  lemma {:induction false} RootsSeenExact(root: seq<nat>, upTo: nat)
    requires upTo <= |root|
    ensures forall r: nat :: r in RootsSeen(root, upTo) <==> Members(root, r, upTo) != []
    ensures HeadsAscend(Groups(root, RootsSeen(root, upTo), upTo))
  {
    if upTo > 0 {
      RootsSeenExact(root, upTo - 1);
      var s, t, r := RootsSeen(root, upTo - 1), RootsSeen(root, upTo), root[upTo - 1];
      var old', new' := Groups(root, s, upTo - 1), Groups(root, t, upTo);
      forall k | 0 <= k < |new'| ensures new'[k] != [] { assert t[k] in t; }
      forall x, y | 0 <= x < y < |new'| ensures new'[x][0] < new'[y][0] {
        assert new'[x][0] == old'[x][0];
        if y == |s| {
          assert Members(root, r, upTo - 1) == [];
          MembersExact(root, t[x], upTo - 1);
          assert old'[x][0] in old'[x];
        } else {
          assert new'[y][0] == old'[y][0];
        }
      }
    }
  }

  lemma {:induction false} FilterKeepsHeadsAscending(cs: seq<seq<nat>>, p: seq<nat> -> bool)
    requires HeadsAscend(cs)
    ensures HeadsAscend(Filter(cs, p))
  {
    if cs != [] {
      FilterKeepsHeadsAscending(cs[1..], p);
      var rest := Filter(cs[1..], p);
      forall k | 0 <= k < |rest| ensures cs[0][0] < rest[k][0] {
        assert rest[k] in cs[1..];
        var m :| 1 <= m < |cs| && cs[m] == rest[k];
      }
    }
  }

  ghost function LargeGroups(root: seq<nat>): seq<seq<nat>> {
    Filter(Groups(root, RootsSeen(root, |root|), |root|), (c: seq<nat>) => |c| >= 2)
  }

  lemma LargeGroupIsMembers(root: seq<nat>, c: seq<nat>) returns (r: nat)
    requires c in LargeGroups(root)
    ensures c == Members(root, r, |root|) && |c| >= 2
  {
    var keys := RootsSeen(root, |root|);
    var all := Groups(root, keys, |root|);
    var x :| 0 <= x < |all| && all[x] == c;
    r := keys[x];
  }

  lemma PairHasGroup(root: seq<nat>, i: nat, j: nat)
    requires i < |root| && j < |root| && i != j && root[i] == root[j]
    ensures Members(root, root[i], |root|) in LargeGroups(root) && i in Members(root, root[i], |root|)
  {
    var keys := RootsSeen(root, |root|);
    var all, c := Groups(root, keys, |root|), Members(root, root[i], |root|);
    MembersExact(root, root[i], |root|);
    RootsSeenExact(root, |root|);
    assert i in c && j in c;
    var x :| 0 <= x < |c| && c[x] == i;
    var y :| 0 <= y < |c| && c[y] == j;
    assert |c| >= 2;
    var k :| 0 <= k < |keys| && keys[k] == root[i];
    assert all[k] == c;
  }

  lemma GroupsAreComponents(root: seq<nat>, e: Edges)
    requires Represents(root, e)
    ensures IsComponentList(e, |root|, LargeGroups(root))
  {
    var n, out := |root|, LargeGroups(root);
    forall c, i: nat, j: nat | c in out && i in c && j < n ensures j in c <==> Connected(e, i, j) {
      var r := LargeGroupIsMembers(root, c);
      MembersExact(root, r, n);
      RepresentsExactly(root, e, i, j);
    }
    forall c | c in out ensures |c| >= 2 && Ascending(c) && forall i | i in c :: i < n {
      var r := LargeGroupIsMembers(root, c);
      MembersExact(root, r, n);
    }
    forall i: nat, j: nat | i < n && j < n && i != j && Connected(e, i, j) ensures exists c :: c in out && i in c {
      RepresentsExactly(root, e, i, j);
      PairHasGroup(root, i, j);
    }
    RootsSeenExact(root, n);
    FilterKeepsHeadsAscending(Groups(root, RootsSeen(root, n), n), (c: seq<nat>) => |c| >= 2);
  }

  ghost predicate EdgesBefore(e: Edges, tokens: seq<set<string>>, threshold: real, i: nat, j: nat) {
    forall a: nat, b: nat :: (a, b) in e <==>
      (a < i || (a == i && b < j)) && a < b < |tokens| && Jaccard(tokens[a], tokens[b]) >= threshold
  }

  /** The parent array is a forest whose roots are the components of `e`. */
  ghost predicate Tracks(parent: seq<nat>, root: seq<nat>, level: seq<nat>, e: Edges) {
    Forest(parent, root, level) && Represents(root, e)
  }

  lemma SingletonsTrack(n: nat, parent: seq<nat>, root: seq<nat>, level: seq<nat>)
    requires |parent| == |root| == |level| == n
    requires forall i | 0 <= i < n :: parent[i] == i && root[i] == i
    ensures Tracks(parent, root, level, {})
  {
    forall a: nat | a < n ensures Connected({}, a, a) { ConnectedRefl({}, a); }
  }

  method JoinIfSimilar(tokens: seq<set<string>>, threshold: real, parent: array<nat>, i: nat, j: nat,
                       ghost root: seq<nat>, ghost level: seq<nat>, ghost e: Edges)
      returns (ghost root': seq<nat>, ghost level': seq<nat>, ghost e': Edges)
    requires i < j < |tokens| == parent.Length
    requires Tracks(parent[..], root, level, e) && EdgesBefore(e, tokens, threshold, i, j)
    modifies parent
    ensures Tracks(parent[..], root', level', e') && EdgesBefore(e', tokens, threshold, i, j + 1)
  {
    root', level', e' := root, level, e;
    if Jaccard(tokens[i], tokens[j]) >= threshold {
      JoinRepresents(root, e, i, j);
      root', level' := Union(parent, i, j, root, level);
      e' := e + {(i, j)};
    }
  }

  lemma EdgesComplete(e: Edges, tokens: seq<set<string>>, threshold: real)
    requires EdgesBefore(e, tokens, threshold, |tokens|, 0)
    ensures e == SimilarPairs(tokens, threshold)
  {
    forall p ensures p in e <==> p in SimilarPairs(tokens, threshold) {
      assert p == (p.0, p.1);
    }
  }

  lemma EdgesNextRow(e: Edges, tokens: seq<set<string>>, threshold: real, i: nat)
    requires i < |tokens|
    ensures EdgesBefore(e, tokens, threshold, i, 0) <==> EdgesBefore(e, tokens, threshold, i, i + 1)
    ensures EdgesBefore(e, tokens, threshold, i + 1, 0) <==> EdgesBefore(e, tokens, threshold, i, |tokens|)
  {
  }

  /** Joins every sufficiently similar pair; equal roots end up meaning "connected". */
  method JoinSimilar(tokens: seq<set<string>>, threshold: real, parent: array<nat>)
      returns (ghost root: seq<nat>, ghost level: seq<nat>)
    requires parent.Length == |tokens| && forall i | 0 <= i < parent.Length :: parent[i] == i
    modifies parent
    ensures Tracks(parent[..], root, level, SimilarPairs(tokens, threshold))
  {
    var n := |tokens|;
    root, level := seq(n, i => i), seq(n, i => 0);
    ghost var e: Edges := {};
    SingletonsTrack(n, parent[..], root, level);
    for i := 0 to n
      invariant Tracks(parent[..], root, level, e) && EdgesBefore(e, tokens, threshold, i, 0)
    {
      EdgesNextRow(e, tokens, threshold, i);
      for j := i + 1 to n
        invariant Tracks(parent[..], root, level, e) && EdgesBefore(e, tokens, threshold, i, j)
      {
        root, level, e := JoinIfSimilar(tokens, threshold, parent, i, j, root, level, e);
      }
      EdgesNextRow(e, tokens, threshold, i);
    }
    EdgesComplete(e, tokens, threshold);
  }

  /** `groups` holds, under the roots met so far, the indices below `i` with that root. */
  ghost predicate Grouped(keys: seq<nat>, groups: map<nat, seq<nat>>, root: seq<nat>, i: nat) {
    && i <= |root|
    && keys == RootsSeen(root, i)
    && (forall r: nat :: r in groups <==> r in keys)
    && (forall r | r in groups :: groups[r] == Members(root, r, i))
  }

  /** `setdefault(root, []).append(i)` on the ordered buckets. */
  method AddToGroup(keys: seq<nat>, groups: map<nat, seq<nat>>, r: nat, i: nat, ghost root: seq<nat>)
      returns (keys': seq<nat>, groups': map<nat, seq<nat>>)
    requires i < |root| && r == root[i] && Grouped(keys, groups, root, i)
    ensures Grouped(keys', groups', root, i + 1)
  {
    RootsSeenExact(root, i);
    keys', groups' := keys, groups;
    if r !in groups' {
      keys', groups' := keys' + [r], groups'[r := []];
    }
    groups' := groups'[r := groups'[r] + [i]];
  }

  /** Buckets the indices by root, in order of first appearance. */
  method GroupByRoot(parent: array<nat>, ghost root: seq<nat>, ghost level: seq<nat>)
      returns (keys: seq<nat>, groups: map<nat, seq<nat>>)
    requires Forest(parent[..], root, level)
    modifies parent
    ensures Grouped(keys, groups, root, |root|)
  {
    keys, groups := [], map[];
    for i := 0 to parent.Length
      invariant Forest(parent[..], root, level) && Grouped(keys, groups, root, i)
    {
      var r := Find(parent, i, root, level);
      keys, groups := AddToGroup(keys, groups, r, i, root);
    }
  }

  lemma KeepOneMore(all: seq<seq<nat>>, k: nat, large: seq<nat> -> bool)
    requires k < |all|
    ensures Filter(all[..k + 1], large) == Filter(all[..k], large) + if large(all[k]) then [all[k]] else []
  {
    assert all[..k + 1] == all[..k] + [all[k]];
    FilterSnoc(all[..k], all[k], large);
  }

  /** Drops the groups with fewer than two members. */
  method KeepLarge(keys: seq<nat>, groups: map<nat, seq<nat>>, ghost root: seq<nat>) returns (clusters: seq<seq<nat>>)
    requires Grouped(keys, groups, root, |root|)
    ensures clusters == LargeGroups(root)
  {
    clusters := [];
    ghost var all, large := Groups(root, keys, |root|), (c: seq<nat>) => |c| >= 2;
    for k := 0 to |keys|
      invariant clusters == Filter(all[..k], large)
    {
      assert keys[k] in keys && all[k] == groups[keys[k]];
      KeepOneMore(all, k, large);
      if |groups[keys[k]]| >= 2 {
        clusters := clusters + [groups[keys[k]]];
      }
    }
    assert all[..|keys|] == all;
  }

  /** Returns exactly the connected components of size two or more, in order of their least member. */
  method ClusterByJaccard(tokens: seq<set<string>>, threshold: real) returns (clusters: seq<seq<nat>>)
    ensures IsComponentList(SimilarPairs(tokens, threshold), |tokens|, clusters)
  {
    var n := |tokens|;
    if n < 2 {
      return [];
    }
    var parent := new nat[n](i => i);
    ghost var root, level := JoinSimilar(tokens, threshold, parent);
    GroupsAreComponents(root, SimilarPairs(tokens, threshold));
    var keys, groups := GroupByRoot(parent, root, level);
    clusters := KeepLarge(keys, groups, root);
  }

  lemma {:induction false} ComponentListsMatch(e: Edges, n: nat, a: seq<seq<nat>>, b: seq<seq<nat>>, c: seq<nat>)
    requires IsComponentList(e, n, a) && IsComponentList(e, n, b) && c in a
    ensures c in b
  {
    assert c[0] in c && c[1] in c && c[0] != c[1];
    assert Connected(e, c[0], c[1]);
    var d :| d in b && c[0] in d;
    forall j ensures j in c <==> j in d {
      if j in c { assert j < n && Connected(e, c[0], j); }
      if j in d { assert j < n && Connected(e, c[0], j); }
    }
    AscendingEqual(c, d);
  }

  /** The specification leaves no freedom: the graph determines the cluster list. */
  lemma ComponentListUnique(e: Edges, n: nat, a: seq<seq<nat>>, b: seq<seq<nat>>)
    requires IsComponentList(e, n, a) && IsComponentList(e, n, b)
    ensures a == b
  {
    forall c ensures c in a <==> c in b {
      if c in a { ComponentListsMatch(e, n, a, b, c); }
      if c in b { ComponentListsMatch(e, n, b, a, c); }
    }
    SameHeadsOrdered(a, b);
  }

  /** The overlap of two token sets reaches the threshold; an empty set overlaps with nothing. */
  ghost predicate Overlap(a: set<string>, b: set<string>, threshold: real) {
    if a == {} || b == {} then threshold <= 0.0 else |a * b| as real >= threshold * (|a + b| as real)
  }

  /** A list of entries in which every two neighbours are different entries that overlap. */
  ghost predicate Chain(tokens: seq<set<string>>, threshold: real, p: seq<nat>) {
    && |p| > 0
    && (forall k | 0 <= k < |p| :: p[k] < |tokens|)
    && (forall k | 0 < k < |p| :: p[k - 1] != p[k] && Overlap(tokens[p[k - 1]], tokens[p[k]], threshold))
  }

  lemma OverlapIsSimilar(a: set<string>, b: set<string>, threshold: real)
    ensures Jaccard(a, b) >= threshold <==> Overlap(a, b, threshold)
    ensures Overlap(a, b, threshold) <==> Overlap(b, a, threshold)
  {
    JaccardSymmetric(a, b);
    assert a * b == b * a && a + b == b + a;
    if a != {} && b != {} {
      assert a + b != {};
      var common, either := |a * b| as real, |a + b| as real;
      assert Jaccard(a, b) * either == common;
      if Jaccard(a, b) >= threshold {
        assert (Jaccard(a, b) - threshold) * either >= 0.0;
      } else {
        assert (threshold - Jaccard(a, b)) * either > 0.0;
      }
    }
  }

  lemma AdjacentIsOverlap(tokens: seq<set<string>>, threshold: real, a: nat, b: nat)
    ensures Adjacent(SimilarPairs(tokens, threshold), a, b) <==>
            a < |tokens| && b < |tokens| && a != b && Overlap(tokens[a], tokens[b], threshold)
  {
    if a < |tokens| && b < |tokens| {
      OverlapIsSimilar(tokens[a], tokens[b], threshold);
      JaccardSymmetric(tokens[a], tokens[b]);
    }
  }

  lemma WalkIsChain(tokens: seq<set<string>>, threshold: real, p: seq<nat>)
    requires |p| > 0 && p[0] < |tokens|
    ensures Walk(SimilarPairs(tokens, threshold), p) <==> Chain(tokens, threshold, p)
  {
    var e := SimilarPairs(tokens, threshold);
    forall k | 0 < k < |p|
      ensures Adjacent(e, p[k - 1], p[k]) <==>
              p[k - 1] < |tokens| && p[k] < |tokens| && p[k - 1] != p[k] && Overlap(tokens[p[k - 1]], tokens[p[k]], threshold)
    {
      AdjacentIsOverlap(tokens, threshold, p[k - 1], p[k]);
    }
    if Walk(e, p) {
      forall k | 0 <= k < |p| ensures p[k] < |tokens| {
        if k > 0 { assert Adjacent(e, p[k - 1], p[k]); }
      }
    }
  }

  /** Two entries end up in one cluster exactly when a chain of overlapping entries leads from one to the other. */
  lemma OneClusterIff(tokens: seq<set<string>>, threshold: real, clusters: seq<seq<nat>>, i: nat, j: nat)
    requires IsComponentList(SimilarPairs(tokens, threshold), |tokens|, clusters)
    requires i < |tokens| && j < |tokens| && i != j
    ensures (exists c :: c in clusters && i in c && j in c) <==>
            (exists p :: Chain(tokens, threshold, p) && p[0] == i && p[|p| - 1] == j)
  {
    var e := SimilarPairs(tokens, threshold);
    if c :| c in clusters && i in c && j in c {
      assert Connected(e, i, j);
      var p :| Walk(e, p) && p[0] == i && p[|p| - 1] == j;
      WalkIsChain(tokens, threshold, p);
    }
    if p :| Chain(tokens, threshold, p) && p[0] == i && p[|p| - 1] == j {
      WalkIsChain(tokens, threshold, p);
      assert Connected(e, i, j);
      var c :| c in clusters && i in c;
      assert j in c;
    }
  }

  lemma SameHeadsOrdered(a: seq<seq<nat>>, b: seq<seq<nat>>)
    requires forall c :: c in a <==> c in b
    requires HeadsAscend(a) && HeadsAscend(b)
    ensures a == b
  {
    var ha := seq(|a|, k requires 0 <= k < |a| => a[k][0]);
    var hb := seq(|b|, k requires 0 <= k < |b| => b[k][0]);
    forall h ensures h in ha <==> h in hb {
      if h in ha {
        var k :| 0 <= k < |a| && ha[k] == h;
        assert a[k] in b;
        var m :| 0 <= m < |b| && b[m] == a[k];
        assert hb[m] == h;
      }
      if h in hb {
        var k :| 0 <= k < |b| && hb[k] == h;
        assert b[k] in a;
        var m :| 0 <= m < |a| && a[m] == b[k];
        assert ha[m] == h;
      }
    }
    AscendingEqual(ha, hb);
    forall k | 0 <= k < |a| ensures a[k] == b[k] {
      assert a[k] in b;
      var m :| 0 <= m < |b| && b[m] == a[k];
      assert hb[m] == ha[k] == hb[k];
    }
  }
}
