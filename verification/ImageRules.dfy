/** What preparing a request does to every single image, said in terms of the image's own fields: the round it came
    in, its sizes on record and on disk, and where it stands among the younger ones. */
module ImageRules {
  import opened Ordering
  import opened Optional
  import opened ImageRetention
  import opened ImageLaws

  ghost predicate Usable(r: Ref) {
    r.active && r.eligible && !r.evicted
  }

  /** How many rounds ago the image came in, counting the request being prepared. */
  ghost function Age(c: Context, r: Ref): int {
    if r.created == None then 0 else c.round + 1 - r.created.value
  }

  ghost function Dropped(r: Ref, reason: string): Ref {
    r.(active := false, evicted := true, reason := reason)
  }

  // ---- Evicting and loading a list of images ----

  lemma {:induction false} EvictAllExact(w: Work, refs: seq<Ref>, reason: string)
    ensures |EvictAll(w, refs, reason).images| == |w.images|
    ensures forall k | 0 <= k < |w.images| :: EvictAll(w, refs, reason).images[k] ==
              if w.images[k].id in IdsOf(refs) then Dropped(w.images[k], reason) else w.images[k]
    decreases |refs|
  {
    if refs != [] {
      var before, last := refs[..|refs| - 1], refs[|refs| - 1];
      EvictAllExact(w, before, reason);
      assert refs == before + [last];
      IdsSnoc(before, last);
    }
  }

  /** The readable files have their actual sizes recorded, the others are dropped. */
  ghost function AfterLoading(r: Ref, load: string -> Option<nat>): Ref {
    if load(r.id) == None then Dropped(r, "missing_or_corrupt_file") else r.(bytes := load(r.id).value)
  }

  lemma {:induction false} LoadAllExact(w: Work, refs: seq<Ref>, load: string -> Option<nat>)
    ensures |LoadAll(w, refs, load).images| == |w.images|
    ensures forall k | 0 <= k < |w.images| :: LoadAll(w, refs, load).images[k] ==
              if w.images[k].id in IdsOf(refs) then AfterLoading(w.images[k], load) else w.images[k]
    decreases |refs|
  {
    if refs != [] {
      var before, last := refs[..|refs| - 1], refs[|refs| - 1];
      LoadAllExact(w, before, load);
      assert refs == before + [last];
      IdsSnoc(before, last);
    }
  }

  // ---- Candidates ----

  /** An image is a candidate exactly when it is usable and came in fewer than the kept number of rounds ago. */
  lemma CandidateIff(c: Context, limits: Limits, r: Ref)
    ensures r in InRound(c, limits) <==> r in c.images && Usable(r) && Age(c, r) < limits.keepRounds
    ensures r in Stale(c, limits) <==> r in c.images && Usable(r) && Age(c, r) >= limits.keepRounds
  {
    SortKeepsItems(Recent(c, limits), ByRound(c.round + 1));
  }

  ghost function OfAge(c: Context, limits: Limits, age: int): Ref -> bool {
    (r: Ref) => Usable(r) && Age(c, r) == age && age < limits.keepRounds
  }

  lemma OfOneAge(c: Context, limits: Limits, age: int, x: Ref, y: Ref)
    requires OfAge(c, limits, age)(x) && OfAge(c, limits, age)(y)
    ensures ByRound(c.round + 1)(x, y) && !TooOld(c.round + 1, limits.keepRounds)(x) && IsLive()(x)
  {
  }

  lemma TiesInPlace(s: seq<Ref>, live: Ref -> bool, stale: Ref -> bool, le: (Ref, Ref) -> bool, p: Ref -> bool)
    requires forall x, y | p(x) && p(y) :: le(x, y)
    requires forall x | p(x) :: live(x) && !stale(x)
    ensures Filter(SortBy(Reject(Filter(s, live), stale), le), p) == Filter(s, p)
  {
    SortStable(Reject(Filter(s, live), stale), le, p);
    FilterAfterReject(Filter(s, live), stale, p);
    FilterTwice(s, live, p);
  }

  lemma SameAgeInPlace(c: Context, limits: Limits, age: int)
    ensures Filter(InRound(c, limits), OfAge(c, limits, age)) == Filter(c.images, OfAge(c, limits, age))
  {
    var p, stale, le := OfAge(c, limits, age), TooOld(c.round + 1, limits.keepRounds), ByRound(c.round + 1);
    forall x, y | p(x) && p(y) ensures le(x, y) { OfOneAge(c, limits, age, x, y); }
    forall x | p(x) ensures IsLive()(x) && !stale(x) { OfOneAge(c, limits, age, x, x); }
    TiesInPlace(c.images, IsLive(), stale, le, p);
    assert Recent(c, limits) == Reject(Filter(c.images, IsLive()), stale);
    assert InRound(c, limits) == SortBy(Recent(c, limits), le);
  }

  /** Candidates come oldest first, and those of one age as they stand in the session. */
  lemma CandidatesOldestFirst(c: Context, limits: Limits, age: int)
    ensures var order := InRound(c, limits);
            && (forall j, k | 0 <= j < k < |order| :: Age(c, order[j]) >= Age(c, order[k]))
            && Filter(order, OfAge(c, limits, age)) == Filter(c.images, OfAge(c, limits, age))
  {
    SameAgeInPlace(c, limits, age);
    OlderFirst(c, limits);
  }

  lemma ByRoundIsByAge(c: Context, x: Ref, y: Ref)
    ensures ByRound(c.round + 1)(x, y) <==> Age(c, x) >= Age(c, y)
  {
  }

  lemma OlderFirst(c: Context, limits: Limits)
    ensures var order := InRound(c, limits); forall j, k | 0 <= j < k < |order| :: Age(c, order[j]) >= Age(c, order[k])
  {
    var now, order := c.round + 1, InRound(c, limits);
    SortedByAge(Recent(c, limits), now, now);
    assert SortedBy(order, ByRound(now));
    forall j, k | 0 <= j < k < |order| ensures Age(c, order[j]) >= Age(c, order[k]) {
      ByRoundIsByAge(c, order[j], order[k]);
    }
  }

  lemma {:induction false} FilterTwice(s: seq<Ref>, p: Ref -> bool, q: Ref -> bool)
    requires forall r | r in s && q(r) :: p(r)
    ensures Filter(Filter(s, p), q) == Filter(s, q)
  {
    if s != [] {
      FilterTwice(s[1..], p, q);
      FilterConcat(if p(s[0]) then [s[0]] else [], Filter(s[1..], p), q);
      FilterOne(s[0], q);
    }
  }

  // ---- The byte budget ----

  lemma {:induction false} BytesAdd(a: seq<Ref>, b: seq<Ref>)
    ensures Bytes(a + b) == Bytes(a) + Bytes(b)
    ensures forall r :: Bytes([r]) == r.bytes
  {
    forall r ensures Bytes([r]) == r.bytes { assert [r][1..] == []; }
    if a == [] {
      assert a + b == b;
    } else {
      BytesAdd(a[1..], b);
      assert (a + b)[1..] == a[1..] + b;
    }
  }

  /** An image goes exactly when it and the younger ones together exceed the budget. */
  lemma OverBudgetIff(refs: seq<Ref>, budget: nat, j: nat)
    requires j < |refs|
    ensures j < Excess(refs, budget) <==> Bytes(refs[j..]) > budget
  {
    ExcessFits(refs, budget);
    var n := Excess(refs, budget);
    if n <= j {
      SuffixFits(refs[n..], j - n);
      assert refs[n..][j - n..] == refs[j..];
    }
  }

  lemma OneAmong(refs: seq<Ref>, j: nat, n: nat)
    requires DistinctIds(refs) && j < |refs| && n <= |refs|
    ensures refs[j].id in IdsOf(refs[..n]) <==> j < n
    ensures refs[j].id in IdsOf(refs[n..]) <==> j >= n
  {
    IdsSplit(refs, n);
    if j < n { assert refs[..n][j] == refs[j]; } else { assert refs[n..][j - n] == refs[j]; }
  }

  /** What the byte budget does to one image of a list. */
  lemma BudgetedAt(w: Work, refs: seq<Ref>, budget: nat, j: nat, k: nat)
    requires DistinctIds(refs) && j < |refs| && k < |w.images| && w.images[k].id == refs[j].id
    ensures |Budgeted(w, refs, budget).images| == |w.images|
    ensures Budgeted(w, refs, budget).images[k] ==
            if Bytes(refs[j..]) > budget then Dropped(w.images[k], "encoded_byte_budget") else w.images[k]
  {
    EvictAllExact(w, refs[..Excess(refs, budget)], "encoded_byte_budget");
    OverBudgetIff(refs, budget, j);
    OneAmong(refs, j, Excess(refs, budget));
  }

  // ---- Fitting the request to the provider ----

  /** The draft without its `k` oldest images. */
  ghost function Without(d: Draft, k: nat, purpose: Purpose): Draft
    requires k <= |d.hydrated|
  {
    if purpose == Summary then
      Draft(d.work, d.hydrated[k..], d.excluded + seq(k, i requires 0 <= i < k => (d.hydrated[i].id, "provider_body_limit")))
    else Draft(EvictAll(d.work, d.hydrated[..k], "provider_body_limit"), d.hydrated[k..], d.excluded)
  }

  ghost predicate Accepted(d: Draft, req: Request) {
    req.preflight(Provider(req.messages, d.work.notices, d.hydrated)) != Some(false)
  }

  lemma {:induction false} EvictAllCons(w: Work, first: Ref, rest: seq<Ref>, reason: string)
    ensures EvictAll(w, [first] + rest, reason) == EvictAll(Evict(w, first, reason), rest, reason)
    decreases |rest|
  {
    if rest == [] {
      assert [first] + rest == [] + [first];
      EvictAllOne(w, [], first, reason);
    } else {
      var before, last, w' := rest[..|rest| - 1], rest[|rest| - 1], Evict(w, first, reason);
      EvictAllCons(w, first, before, reason);
      assert rest == before + [last];
      assert [first] + rest == ([first] + before) + [last];
      EvictAllOne(w, [first] + before, last, reason);
      EvictAllOne(w', before, last, reason);
    }
  }

  lemma WithoutOneMore(d: Draft, k: nat, purpose: Purpose)
    requires k < |d.hydrated|
    ensures Without(WithoutOldest(d, purpose), k, purpose) == Without(d, k + 1, purpose)
  {
    var first, rest := d.hydrated[0], d.hydrated[1..];
    assert rest[k..] == d.hydrated[k + 1..];
    if purpose == Summary {
      assert d.excluded + [(first.id, "provider_body_limit")] + seq(k, i requires 0 <= i < k => (rest[i].id, "provider_body_limit"))
          == d.excluded + seq(k + 1, i requires 0 <= i < k + 1 => (d.hydrated[i].id, "provider_body_limit"));
    } else {
      EvictAllCons(d.work, first, rest[..k], "provider_body_limit");
      assert [first] + rest[..k] == d.hydrated[..k + 1];
    }
  }

  lemma WithoutNone(d: Draft, purpose: Purpose)
    ensures Without(d, 0, purpose) == d
  {
    assert d.hydrated[0..] == d.hydrated && d.hydrated[..0] == [];
  }

  /** As many of the oldest images are left out as it takes for the provider to accept, and no more. */
  lemma {:induction false} LeavesOutTheFewest(d: Draft, req: Request) returns (k: nat)
    ensures k <= |d.hydrated| && Fitted(d, req) == Without(d, k, req.purpose)
    ensures forall i | 0 <= i < k :: !Accepted(Without(d, i, req.purpose), req)
    ensures k < |d.hydrated| ==> Accepted(Without(d, k, req.purpose), req)
    decreases |d.hydrated|
  {
    WithoutNone(d, req.purpose);
    if Accepted(d, req) || d.hydrated == [] {
      k := 0;
    } else {
      var next := WithoutOldest(d, req.purpose);
      var j := LeavesOutTheFewest(next, req);
      k := j + 1;
      forall i: nat | i < k ensures !Accepted(Without(d, i, req.purpose), req) {
        if i > 0 { WithoutOneMore(d, i - 1, req.purpose); }
      }
      WithoutOneMore(d, j, req.purpose);
    }
  }

  // ---- The fate of one image ----

  /** What preparing makes of a candidate, given the candidates from it on to the youngest: it goes if they exceed the
      budget by their recorded sizes, if the model takes no images, if its file cannot be read, if the readable ones
      of them exceed the budget by their actual sizes, or if the provider refuses; a summary only passes it over for
      a model without images or a provider that refuses. */
  ghost predicate Fate(r: Ref, after: Ref, carried: bool, younger: seq<Ref>, limits: Limits, req: Request) {
    if Bytes(younger) > limits.maxBytes then !carried && after == Dropped(r, "encoded_byte_budget")
    else if req.support == None then
      !carried && after == if req.purpose == Main then Dropped(r, "model_image_support_unknown") else r
    else if req.support == Some(false) then
      !carried && after == if req.purpose == Main then Dropped(r, "model_does_not_support_images") else r
    else if req.load(r.id) == None then !carried && after == Dropped(r, "missing_or_corrupt_file")
    else
      var full := r.(bytes := req.load(r.id).value);
      if Bytes(Loaded(younger, req.load)) > limits.maxBytes then !carried && after == Dropped(full, "encoded_byte_budget")
      else after == if carried || req.purpose == Summary then full else Dropped(full, "provider_body_limit")
  }

  /** Loading reads the files one by one and passes over those that cannot be read. */
  lemma LoadedOne(r: Ref, load: string -> Option<nat>)
    ensures Loaded([r], load) == if load(r.id) == None then [] else [r.(bytes := load(r.id).value)]
  {
    assert [r][..0] == [];
  }

  lemma LoadedFrom(refs: seq<Ref>, i: nat, load: string -> Option<nat>) returns (p: nat)
    requires i < |refs| && load(refs[i].id).Some?
    ensures p < |Loaded(refs, load)| && Loaded(refs, load)[p].id == refs[i].id
    ensures Loaded(refs, load)[p..] == Loaded(refs[i..], load)
  {
    p := |Loaded(refs[..i], load)|;
    assert refs == refs[..i] + refs[i..] && refs[i..] == [refs[i]] + refs[i + 1..];
    LoadedConcat(refs[..i], refs[i..], load);
    LoadedConcat([refs[i]], refs[i + 1..], load);
    LoadedOne(refs[i], load);
  }

  lemma FittedAt(d: Draft, req: Request, k: nat)
    requires DistinctIds(d.hydrated) && k < |d.work.images|
    ensures var d', id := Fitted(d, req), d.work.images[k].id;
            && |d'.work.images| == |d.work.images|
            && (id in IdsOf(d'.hydrated) ==> id in IdsOf(d.hydrated))
            && d'.work.images[k] == (
                 if req.purpose == Main && id in IdsOf(d.hydrated) && id !in IdsOf(d'.hydrated)
                 then Dropped(d.work.images[k], "provider_body_limit") else d.work.images[k])
  {
    var n := LeavesOutTheFewest(d, req);
    EvictAllExact(d.work, d.hydrated[..n], "provider_body_limit");
    IdsSplit(d.hydrated, n);
  }

  lemma HydratedAt(w: Work, refs: seq<Ref>, limits: Limits, req: Request, i: nat, k: nat)
    requires DistinctIds(refs) && i < |refs| && k < |w.images| && w.images[k].id == refs[i].id
    requires req.support == Some(true)
    ensures var d, r := Hydrated(w, refs, limits, req), w.images[k];
            var fits := Bytes(Loaded(refs[i..], req.load)) <= limits.maxBytes;
            && DistinctIds(d.hydrated) && |d.work.images| == |w.images|
            && (r.id in IdsOf(d.hydrated) <==> req.load(r.id).Some? && fits)
            && d.work.images[k] == (
                 if req.load(r.id).None? || fits then AfterLoading(r, req.load)
                 else Dropped(AfterLoading(r, req.load), "encoded_byte_budget"))
  {
    var all, r, w2 := Loaded(refs, req.load), w.images[k], LoadAll(w, refs, req.load);
    var n := Excess(all, limits.maxBytes);
    LoadAllExact(w, refs, req.load);
    LoadedDistinct(refs, req.load);
    LoadedIds(refs, req.load);
    IdsSplit(all, n);
    assert refs[i].id in IdsOf(refs);
    if req.load(r.id).Some? {
      var p := LoadedFrom(refs, i, req.load);
      BudgetedAt(w2, all, limits.maxBytes, p, k);
      OverBudgetIff(all, limits.maxBytes, p);
      OneAmong(all, p, n);
    } else {
      EvictAllExact(w2, all[..n], "encoded_byte_budget");
    }
  }

  /** What follows the age check. */
  ghost function Rest(w: Work, order: seq<Ref>, limits: Limits, req: Request): Draft {
    Fitted(Hydrated(Budgeted(w, order, limits.maxBytes), order[Excess(order, limits.maxBytes)..], limits, req), req)
  }

  lemma HydratedElsewhere(w: Work, refs: seq<Ref>, limits: Limits, req: Request, k: nat)
    requires DistinctIds(refs) && k < |w.images| && w.images[k].id !in IdsOf(refs)
    ensures var d := Hydrated(w, refs, limits, req);
            && |d.work.images| == |w.images| && d.work.images[k] == w.images[k]
            && DistinctIds(d.hydrated) && w.images[k].id !in IdsOf(d.hydrated)
  {
    if req.support == Some(true) {
      var loaded := Loaded(refs, req.load);
      LoadAllExact(w, refs, req.load);
      LoadedDistinct(refs, req.load);
      LoadedIds(refs, req.load);
      IdsSplit(loaded, Excess(loaded, limits.maxBytes));
      EvictAllExact(LoadAll(w, refs, req.load), loaded[..Excess(loaded, limits.maxBytes)], "encoded_byte_budget");
    } else {
      EvictAllExact(w, refs, Unsupported(req.support));
    }
  }

  lemma RestElsewhere(w: Work, order: seq<Ref>, limits: Limits, req: Request, k: nat)
    requires DistinctIds(order) && k < |w.images| && w.images[k].id !in IdsOf(order)
    ensures var d := Rest(w, order, limits, req);
            |d.work.images| == |w.images| && d.work.images[k] == w.images[k] && w.images[k].id !in IdsOf(d.hydrated)
  {
    var n := Excess(order, limits.maxBytes);
    var w1 := Budgeted(w, order, limits.maxBytes);
    IdsSplit(order, n);
    EvictAllExact(w, order[..n], "encoded_byte_budget");
    HydratedElsewhere(w1, order[n..], limits, req, k);
    FittedAt(Hydrated(w1, order[n..], limits, req), req, k);
  }

  lemma RestAt(w: Work, order: seq<Ref>, limits: Limits, req: Request, j: nat, k: nat)
    requires DistinctIds(order) && j < |order| && k < |w.images| && w.images[k].id == order[j].id
    ensures var d := Rest(w, order, limits, req);
            && |d.work.images| == |w.images|
            && Fate(w.images[k], d.work.images[k], w.images[k].id in IdsOf(d.hydrated), order[j..], limits, req)
  {
    var n := Excess(order, limits.maxBytes);
    var w1, within := Budgeted(w, order, limits.maxBytes), order[n..];
    BudgetedAt(w, order, limits.maxBytes, j, k);
    OverBudgetIff(order, limits.maxBytes, j);
    OneAmong(order, j, n);
    IdsSplit(order, n);
    EvictAllExact(w, order[..n], "encoded_byte_budget");
    if j < n {
      HydratedElsewhere(w1, within, limits, req, k);
    } else {
      assert within[j - n..] == order[j..];
      WithinAt(w1, within, limits, req, j - n, k);
    }
    FittedAt(Hydrated(w1, within, limits, req), req, k);
  }

  lemma WithinAt(w: Work, refs: seq<Ref>, limits: Limits, req: Request, i: nat, k: nat)
    requires DistinctIds(refs) && i < |refs| && k < |w.images| && w.images[k].id == refs[i].id
    requires Bytes(refs[i..]) <= limits.maxBytes
    ensures var d := Hydrated(w, refs, limits, req); var d' := Fitted(d, req);
            && DistinctIds(d.hydrated) && |d.work.images| == |d'.work.images| == |w.images|
            && Fate(w.images[k], d'.work.images[k], w.images[k].id in IdsOf(d'.hydrated), refs[i..], limits, req)
  {
    var d := Hydrated(w, refs, limits, req);
    if req.support == Some(true) {
      HydratedAt(w, refs, limits, req, i, k);
      FittedAt(d, req, k);
    } else {
      assert req.support.Some? ==> !req.support.value && req.support == Some(false);
      EvictAllExact(w, refs, Unsupported(req.support));
      assert refs[i].id in IdsOf(refs);
      assert Fitted(d, req) == d && d.hydrated == [];
    }
  }

  lemma OneImage(images: seq<Ref>, r: Ref, k: nat)
    requires DistinctIds(images) && k < |images| && r in images && r.id == images[k].id
    ensures r == images[k]
  {
    var i :| 0 <= i < |images| && images[i] == r;
    assert i == k;
  }

  /** An image that cannot be used stays as it is, and one that has been in the session for the kept number of rounds
      goes for that reason; neither is carried. */
  lemma OutsideItsRounds(c: Context, limits: Limits, req: Request, k: nat)
    requires DistinctIds(c.images) && k < |c.images|
    ensures var (after, p), r := Prepare(c, limits, req), c.images[k];
            && |after.images| == |c.images|
            && (!Usable(r) ==> after.images[k] == r && r.id !in p.selected)
            && (Usable(r) && Age(c, r) >= limits.keepRounds ==>
                  after.images[k] == Dropped(r, "round_limit") && r.id !in p.selected)
  {
    var r, order := c.images[k], InRound(c, limits);
    AgedAt(c, limits, k);
    LiveIds(c, limits);
    if !Usable(r) || Age(c, r) >= limits.keepRounds {
      RestElsewhere(AgedOut(c, limits), order, limits, req, k);
    } else {
      CandidateIff(c, limits, r);
      var j :| 0 <= j < |order| && order[j] == r;
      RestAt(AgedOut(c, limits), order, limits, req, j, k);
    }
    NamesAreIds(Final(c, limits, req).hydrated, r.id);
  }

  lemma AgedAt(c: Context, limits: Limits, k: nat)
    requires DistinctIds(c.images) && k < |c.images|
    ensures var w, r := AgedOut(c, limits), c.images[k];
            && |w.images| == |c.images|
            && w.images[k] == (if Usable(r) && Age(c, r) >= limits.keepRounds then Dropped(r, "round_limit") else r)
            && (r.id in IdsOf(InRound(c, limits)) <==> Usable(r) && Age(c, r) < limits.keepRounds)
  {
    var r, stale, order := c.images[k], Stale(c, limits), InRound(c, limits);
    EvictAllExact(Start(c), stale, "round_limit");
    CandidateIff(c, limits, r);
    if x :| x in stale && x.id == r.id { CandidateIff(c, limits, x); OneImage(c.images, x, k); }
    if x :| x in order && x.id == r.id { CandidateIff(c, limits, x); OneImage(c.images, x, k); }
  }

  /** The fate of every candidate, whatever the request is for, is decided by the candidates from it on. */
  lemma FateOfCandidate(c: Context, limits: Limits, req: Request, j: nat, k: nat)
    requires DistinctIds(c.images) && j < |InRound(c, limits)| && k < |c.images| && c.images[k] == InRound(c, limits)[j]
    ensures var (after, p), r := Prepare(c, limits, req), c.images[k];
            && |after.images| == |c.images|
            && Fate(r, after.images[k], r.id in p.selected, InRound(c, limits)[j..], limits, req)
  {
    var r := c.images[k];
    AgedAt(c, limits, k);
    LiveIds(c, limits);
    CandidateIff(c, limits, r);
    RestAt(AgedOut(c, limits), InRound(c, limits), limits, req, j, k);
    NamesAreIds(Final(c, limits, req).hydrated, r.id);
  }

  // ---- Notices and the report of evictions ----

  ghost predicate SameImages(a: seq<Ref>, b: seq<Ref>) {
    |a| == |b| && forall k | 0 <= k < |a| ::
      b[k].id == a[k].id && b[k].delivered == a[k].delivered && (a[k].evicted ==> b[k] == a[k])
  }

  /** The image is retired in `b` and was not in `a`. */
  ghost predicate Went(a: seq<Ref>, b: seq<Ref>, k: nat) {
    k < |a| == |b| && !a[k].evicted && b[k].evicted
  }

  ghost predicate Reported(a: seq<Ref>, b: seq<Ref>, e: Eviction) {
    exists k: nat :: Went(a, b, k) && e == Eviction(b[k].id, b[k].reason, !b[k].delivered)
  }

  /** The image of this id went, and the model never saw it. */
  ghost predicate Missed(a: seq<Ref>, b: seq<Ref>, id: string, reason: string) {
    exists k: nat :: Went(a, b, k) && b[k].id == id && b[k].reason == reason && !b[k].delivered
  }

  ghost predicate NoticesTell(a: Work, b: Work) {
    && (forall id, reason | Missed(a.images, b.images, id, reason) :: id in b.notices && b.notices[id] == reason)
    && (forall id | forall reason :: !Missed(a.images, b.images, id, reason) ::
          (id in b.notices <==> id in a.notices) && (id in a.notices ==> b.notices[id] == a.notices[id]))
  }

  ghost predicate ReportTells(a: Work, b: Work) {
    && |a.evictions| <= |b.evictions| && b.evictions[..|a.evictions|] == a.evictions
    && (forall e :: e in b.evictions[|a.evictions|..] <==> Reported(a.images, b.images, e))
  }

  /** Exactly the images that went are reported, each with its reason, and a notice is left for those never seen. */
  ghost predicate Told(a: Work, b: Work) {
    SameImages(a.images, b.images) && ReportTells(a, b) && NoticesTell(a, b)
  }

  lemma WentSplits(a: seq<Ref>, b: seq<Ref>, c: seq<Ref>, k: nat)
    requires SameImages(a, b) && SameImages(b, c) && k < |a|
    ensures Went(a, c, k) <==> Went(a, b, k) || Went(b, c, k)
    ensures Went(a, b, k) ==> c[k] == b[k]
    ensures !(Went(a, b, k) && Went(b, c, k))
  {
  }

  lemma ReportedSplits(a: seq<Ref>, b: seq<Ref>, c: seq<Ref>, e: Eviction)
    requires SameImages(a, b) && SameImages(b, c)
    ensures Reported(a, c, e) <==> Reported(a, b, e) || Reported(b, c, e)
  {
    forall k: nat | k < |a|
      ensures Went(a, c, k) <==> Went(a, b, k) || Went(b, c, k)
      ensures Went(a, b, k) ==> c[k] == b[k]
    {
      WentSplits(a, b, c, k);
    }
  }

  lemma MissedSplits(a: seq<Ref>, b: seq<Ref>, c: seq<Ref>, id: string, reason: string)
    requires SameImages(a, b) && SameImages(b, c)
    ensures Missed(a, c, id, reason) <==> Missed(a, b, id, reason) || Missed(b, c, id, reason)
  {
    forall k: nat | k < |a|
      ensures Went(a, c, k) <==> Went(a, b, k) || Went(b, c, k)
      ensures Went(a, b, k) ==> c[k] == b[k]
    {
      WentSplits(a, b, c, k);
    }
  }

  lemma MissedOnce(a: seq<Ref>, b: seq<Ref>, c: seq<Ref>, id: string, reason: string, reason': string)
    requires SameImages(a, b) && SameImages(b, c) && DistinctIds(a)
    requires Missed(a, b, id, reason)
    ensures !Missed(b, c, id, reason')
  {
    var j: nat :| Went(a, b, j) && b[j].id == id && b[j].reason == reason && !b[j].delivered;
    forall k: nat | Went(b, c, k) ensures c[k].id != id {
      assert k != j && a[k].id != a[j].id;
    }
  }

  lemma ToldTrans(a: Work, b: Work, c: Work)
    requires DistinctIds(a.images) && Told(a, b) && Told(b, c)
    ensures Told(a, c)
  {
    var n, m := |a.evictions|, |b.evictions|;
    assert c.evictions[n..] == b.evictions[n..] + c.evictions[m..] by {
      assert c.evictions == b.evictions + c.evictions[m..];
    }
    forall e ensures e in c.evictions[n..] <==> Reported(a.images, c.images, e) {
      ReportedSplits(a.images, b.images, c.images, e);
    }
    forall id, reason | Missed(a.images, c.images, id, reason) ensures id in c.notices && c.notices[id] == reason {
      MissedSplits(a.images, b.images, c.images, id, reason);
      if Missed(a.images, b.images, id, reason) {
        forall other ensures !Missed(b.images, c.images, id, other) {
          MissedOnce(a.images, b.images, c.images, id, reason, other);
        }
      }
    }
    forall id | forall reason :: !Missed(a.images, c.images, id, reason)
      ensures (id in c.notices <==> id in a.notices) && (id in a.notices ==> c.notices[id] == a.notices[id])
    {
      forall reason ensures !Missed(a.images, b.images, id, reason) && !Missed(b.images, c.images, id, reason) {
        MissedSplits(a.images, b.images, c.images, id, reason);
      }
    }
  }

  /** The image stands in the session, not yet retired. */
  ghost predicate Stands(images: seq<Ref>, r: Ref) {
    exists k :: 0 <= k < |images| && images[k].id == r.id && images[k].delivered == r.delivered && !images[k].evicted
  }

  lemma EvictTold(w: Work, r: Ref, reason: string)
    requires DistinctIds(w.images) && Stands(w.images, r)
    ensures Told(w, Evict(w, r, reason))
  {
    var w' := Evict(w, r, reason);
    var a, b := w.images, w'.images;
    var k :| 0 <= k < |a| && a[k].id == r.id && a[k].delivered == r.delivered && !a[k].evicted;
    forall j: nat | Went(a, b, j) ensures j == k { assert a[j].id == r.id; }
    assert Went(a, b, k);
    var e := Eviction(r.id, reason, !r.delivered);
    assert w'.evictions[|w.evictions|..] == [e];
    assert Reported(a, b, e);
    if !r.delivered { assert Missed(a, b, r.id, reason); }
  }

  lemma UntouchedTold(w: Work, w': Work)
    requires w' == w.(images := w'.images) && SameImages(w.images, w'.images)
    requires forall k | 0 <= k < |w.images| :: w'.images[k].evicted == w.images[k].evicted
    ensures Told(w, w')
  {
    forall k: nat ensures !Went(w.images, w'.images, k) {}
    assert w'.evictions[|w.evictions|..] == [];
  }

  lemma {:induction false} EvictAllTold(w: Work, refs: seq<Ref>, reason: string)
    requires DistinctIds(w.images) && DistinctIds(refs) && forall r | r in refs :: Stands(w.images, r)
    ensures Told(w, EvictAll(w, refs, reason))
    decreases |refs|
  {
    if refs == [] {
      UntouchedTold(w, w);
    } else {
      var before, last := refs[..|refs| - 1], refs[|refs| - 1];
      EvictAllTold(w, before, reason);
      EvictAllExact(w, before, reason);
      IdsSplit(refs, |refs| - 1);
      assert last in refs && last in refs[|refs| - 1..];
      assert last.id in IdsOf(refs[|refs| - 1..]);
      var w' := EvictAll(w, before, reason);
      assert Stands(w'.images, last);
      EvictTold(w', last, reason);
      ToldTrans(w, w', Evict(w', last, reason));
    }
  }

  lemma LoadOneTold(w: Work, r: Ref, load: string -> Option<nat>)
    requires DistinctIds(w.images) && Stands(w.images, r)
    ensures Told(w, LoadOne(w, r, load))
  {
    if load(r.id).Some? {
      UntouchedTold(w, LoadOne(w, r, load));
    } else {
      EvictTold(w, r, "missing_or_corrupt_file");
    }
  }

  lemma {:induction false} LoadAllTold(w: Work, refs: seq<Ref>, load: string -> Option<nat>)
    requires DistinctIds(w.images) && DistinctIds(refs) && forall r | r in refs :: Stands(w.images, r)
    ensures Told(w, LoadAll(w, refs, load))
    decreases |refs|
  {
    if refs == [] {
      UntouchedTold(w, w);
    } else {
      var before, last := refs[..|refs| - 1], refs[|refs| - 1];
      LoadAllTold(w, before, load);
      LoadAllExact(w, before, load);
      IdsSplit(refs, |refs| - 1);
      assert last in refs && last in refs[|refs| - 1..];
      assert last.id in IdsOf(refs[|refs| - 1..]);
      var w' := LoadAll(w, before, load);
      assert Stands(w'.images, last);
      LoadOneTold(w', last, load);
      ToldTrans(w, w', LoadOne(w', last, load));
    }
  }

  ghost predicate AllStand(images: seq<Ref>, refs: seq<Ref>) {
    DistinctIds(images) && DistinctIds(refs) && forall r | r in refs :: Stands(images, r)
  }

  /** The images of the list that are not evicted still stand. */
  lemma OthersStand(w: Work, refs: seq<Ref>, n: nat, reason: string)
    requires AllStand(w.images, refs) && n <= |refs|
    ensures AllStand(w.images, refs[..n])
    ensures AllStand(EvictAll(w, refs[..n], reason).images, refs[n..])
  {
    var w' := EvictAll(w, refs[..n], reason);
    EvictAllExact(w, refs[..n], reason);
    IdsSplit(refs, n);
    forall r | r in refs[n..] ensures Stands(w'.images, r) {
      assert r in refs && r.id in IdsOf(refs[n..]);
      var k :| 0 <= k < |w.images| && w.images[k].id == r.id && w.images[k].delivered == r.delivered && !w.images[k].evicted;
      assert w'.images[k] == w.images[k];
    }
  }

  lemma BudgetTold(w: Work, refs: seq<Ref>, budget: nat)
    requires AllStand(w.images, refs)
    ensures Told(w, Budgeted(w, refs, budget)) && AllStand(Budgeted(w, refs, budget).images, refs[Excess(refs, budget)..])
  {
    OthersStand(w, refs, Excess(refs, budget), "encoded_byte_budget");
    EvictAllTold(w, refs[..Excess(refs, budget)], "encoded_byte_budget");
  }

  lemma LoadedOrigin(refs: seq<Ref>, load: string -> Option<nat>, r: Ref)
    requires r in Loaded(refs, load)
    ensures load(r.id).Some? && exists x :: x in refs && x.id == r.id && x.delivered == r.delivered
    decreases |refs|
  {
    var before, last := refs[..|refs| - 1], refs[|refs| - 1];
    if r in Loaded(before, load) { LoadedOrigin(before, load, r); }
  }

  lemma LoadedStand(w: Work, refs: seq<Ref>, load: string -> Option<nat>)
    requires AllStand(w.images, refs)
    ensures Told(w, LoadAll(w, refs, load)) && AllStand(LoadAll(w, refs, load).images, Loaded(refs, load))
  {
    var w' := LoadAll(w, refs, load);
    LoadAllTold(w, refs, load);
    LoadAllExact(w, refs, load);
    LoadedDistinct(refs, load);
    forall r | r in Loaded(refs, load) ensures Stands(w'.images, r) {
      LoadedOrigin(refs, load, r);
      var x :| x in refs && x.id == r.id && x.delivered == r.delivered;
      var k :| 0 <= k < |w.images| && w.images[k].id == x.id && w.images[k].delivered == x.delivered && !w.images[k].evicted;
      assert w'.images[k].id == r.id && !w'.images[k].evicted;
    }
  }

  lemma HydrationTold(w: Work, refs: seq<Ref>, limits: Limits, req: Request)
    requires AllStand(w.images, refs)
    ensures var d := Hydrated(w, refs, limits, req); Told(w, d.work) && AllStand(d.work.images, d.hydrated)
  {
    if req.support == Some(true) {
      var w' := LoadAll(w, refs, req.load);
      LoadedStand(w, refs, req.load);
      BudgetTold(w', Loaded(refs, req.load), limits.maxBytes);
      ToldTrans(w, w', Hydrated(w, refs, limits, req).work);
    } else {
      UntouchedTold(w, w);
      EvictAllTold(w, refs, Unsupported(req.support));
    }
  }

  lemma FittingTold(d: Draft, req: Request)
    requires AllStand(d.work.images, d.hydrated)
    ensures Told(d.work, Fitted(d, req).work)
  {
    var n := LeavesOutTheFewest(d, req);
    UntouchedTold(d.work, d.work);
    OthersStand(d.work, d.hydrated, n, "provider_body_limit");
    EvictAllTold(d.work, d.hydrated[..n], "provider_body_limit");
  }

  lemma StaleStand(c: Context, limits: Limits)
    requires DistinctIds(c.images)
    ensures AllStand(c.images, Stale(c, limits))
  {
    var stale := Stale(c, limits);
    FilterDistinct(c.images, IsLive());
    FilterDistinct(Live(c.images), TooOld(c.round + 1, limits.keepRounds));
    forall r | r in stale ensures Stands(c.images, r) {
      CandidateIff(c, limits, r);
      var k :| 0 <= k < |c.images| && c.images[k] == r;
    }
  }

  lemma CandidateStands(c: Context, limits: Limits, r: Ref)
    requires DistinctIds(c.images) && r in InRound(c, limits)
    ensures Stands(AgedOut(c, limits).images, r)
  {
    CandidateIff(c, limits, r);
    var k :| 0 <= k < |c.images| && c.images[k] == r;
    AgedAt(c, limits, k);
    assert AgedOut(c, limits).images[k] == r;
  }

  lemma CandidatesStand(c: Context, limits: Limits)
    requires DistinctIds(c.images)
    ensures AllStand(AgedOut(c, limits).images, InRound(c, limits))
  {
    var w, order := AgedOut(c, limits), InRound(c, limits);
    LiveIds(c, limits);
    forall r | r in order ensures Stands(w.images, r) { CandidateStands(c, limits, r); }
    forall k: nat | k < |c.images| ensures |w.images| == |c.images| && w.images[k].id == c.images[k].id { AgedAt(c, limits, k); }
    EvictAllExact(Start(c), Stale(c, limits), "round_limit");
  }

  lemma AgingTold(c: Context, limits: Limits)
    requires DistinctIds(c.images)
    ensures Told(Start(c), AgedOut(c, limits))
  {
    StaleStand(c, limits);
    EvictAllTold(Start(c), Stale(c, limits), "round_limit");
  }

  /** A request reports exactly the images it retires, with the reasons they then carry, and leaves a notice for each
      of them that no model response has followed yet; no other notice comes, goes or changes. */
  lemma EvictionsAreTold(c: Context, limits: Limits, req: Request)
    requires DistinctIds(c.images)
    ensures var (after, p) := Prepare(c, limits, req); Told(Start(c), Work(after.images, after.notices, p.evictions))
  {
    var order := InRound(c, limits);
    var n, w0 := Excess(order, limits.maxBytes), AgedOut(c, limits);
    var w1 := Budgeted(w0, order, limits.maxBytes);
    var d := Hydrated(w1, order[n..], limits, req);
    AgingTold(c, limits);
    CandidatesStand(c, limits);
    BudgetTold(w0, order, limits.maxBytes);
    HydrationTold(w1, order[n..], limits, req);
    FittingTold(d, req);
    ToldTrans(Start(c), w0, w1);
    ToldTrans(Start(c), w1, d.work);
    ToldTrans(Start(c), d.work, Fitted(d, req).work);
  }

  /** What the byte budget leaves of the candidates, by recorded size. */
  ghost function Within(c: Context, limits: Limits): seq<Ref> {
    InRound(c, limits)[Excess(InRound(c, limits), limits.maxBytes)..]
  }

  /** What can be read of these and fits by actual size. */
  ghost function Shown(c: Context, limits: Limits, load: string -> Option<nat>): seq<Ref> {
    var readable := Loaded(Within(c, limits), load);
    readable[Excess(readable, limits.maxBytes)..]
  }

  ghost predicate AllPassed(excluded: seq<(string, string)>, refs: seq<Ref>, reason: string) {
    |excluded| == |refs| && forall i | 0 <= i < |refs| :: excluded[i] == (refs[i].id, reason)
  }

  lemma PassedOverByVision(c: Context, limits: Limits, req: Request)
    requires req.purpose == Summary && req.support == Some(true)
    ensures var d, shown := Final(c, limits, req), Shown(c, limits, req.load);
            && |d.excluded| + |d.hydrated| == |shown|
            && AllPassed(d.excluded, shown[..|d.excluded|], "provider_body_limit")
            && d.hydrated == shown[|d.excluded|..]
  {
    var order := InRound(c, limits);
    var d := Hydrated(Budgeted(AgedOut(c, limits), order, limits.maxBytes), Within(c, limits), limits, req);
    assert d.hydrated == Shown(c, limits, req.load) && d.excluded == [];
    var k := LeavesOutTheFewest(d, req);
    assert Final(c, limits, req) == Without(d, k, Summary);
  }

  lemma PassedOverWithout(c: Context, limits: Limits, req: Request)
    requires req.purpose == Main || req.support != Some(true)
    ensures Final(c, limits, req).excluded ==
            if req.purpose == Main then [] else Excluded(Within(c, limits), "summary_model_without_vision")
  {
    var order := InRound(c, limits);
    var d := Hydrated(Budgeted(AgedOut(c, limits), order, limits.maxBytes), Within(c, limits), limits, req);
    var k := LeavesOutTheFewest(d, req);
    assert Final(c, limits, req) == Without(d, k, req.purpose);
  }

  /** A summary keeps the images it passes over and says why; a main request passes over none. */
  lemma PassedOver(c: Context, limits: Limits, req: Request)
    ensures var p, shown := Prepare(c, limits, req).1, Shown(c, limits, req.load);
            && (req.purpose == Main ==> p.excluded == [])
            && (req.purpose == Summary && req.support != Some(true) ==>
                  AllPassed(p.excluded, Within(c, limits), "summary_model_without_vision"))
            && (req.purpose == Summary && req.support == Some(true) ==>
                  && |p.excluded| + |p.selected| == |shown|
                  && AllPassed(p.excluded, shown[..|p.excluded|], "provider_body_limit")
                  && p.selected == Names(shown[|p.excluded|..]))
  {
    if req.purpose == Summary && req.support == Some(true) {
      PassedOverByVision(c, limits, req);
    } else {
      PassedOverWithout(c, limits, req);
    }
  }

  /** The books of a request: a main request records what it carries and the notices it shows, a summary records
      nothing; the bytes are those of what is carried, and the request is blocked when the provider refuses even so. */
  lemma RequestRecords(c: Context, limits: Limits, req: Request)
    ensures var (after, p), kept := Prepare(c, limits, req), Final(c, limits, req).hydrated;
            && after.round == c.round
            && |p.selected| == |kept| && (forall i | 0 <= i < |kept| :: p.selected[i] == kept[i].id)
            && p.encodedBytes == Bytes(kept)
            && p.sent == Provider(req.messages, after.notices, kept)
            && p.accounted == Accounted(req.messages, after.notices, kept)
            && (p.blocked <==> req.preflight(p.sent) == Some(false))
            && (req.purpose == Main ==> after.selected == p.selected && after.noticeIds == after.notices.Keys)
            && (req.purpose == Summary ==> after.selected == c.selected && after.noticeIds == c.noticeIds)
  {
  }

  // ---- Responses, adopted references, and runs ----

  /** An accepted response marks the images and notices of the last main request as seen and starts the next round. */
  lemma ResponseMarks(c: Context, k: nat)
    requires k < |c.images|
    ensures var after, r := MarkResponse(c), c.images[k];
            && |after.images| == |c.images| && after.notices == map[] && after.round == c.round + 1
            && after.selected == c.selected && after.noticeIds == c.noticeIds
            && (after.images[k].delivered <==> r.delivered || r.id in c.selected)
            && (after.images[k].noticeDelivered <==> r.noticeDelivered || r.id in c.noticeIds)
            && after.images[k] == r.(delivered := after.images[k].delivered, noticeDelivered := after.images[k].noticeDelivered)
  {
  }

  /** The image was retired elsewhere and the model has neither seen it nor been told. */
  ghost predicate Untold(r: Ref) {
    r.evicted && !r.delivered && !r.noticeDelivered
  }

  lemma {:induction false} AdoptedNotices(notices: map<string, string>, refs: seq<Ref>, id: string)
    requires DistinctIds(refs)
    ensures forall r | r in refs && r.id == id && Untold(r) ::
              id in NoticesFor(notices, refs) && NoticesFor(notices, refs)[id] == r.reason
    ensures (forall r | r in refs && r.id == id :: !Untold(r)) ==>
              (id in NoticesFor(notices, refs) <==> id in notices) &&
              (id in notices ==> NoticesFor(notices, refs)[id] == notices[id])
    decreases |refs|
  {
    if refs != [] {
      var before, last := refs[..|refs| - 1], refs[|refs| - 1];
      assert refs == before + [last];
      AdoptedNotices(notices, before, id);
      IdsSnoc(before, last);
    }
  }

  ghost predicate PlacedAt(place: int, r: Ref) {
    r.sourceOrder == Some(place)
  }

  /** Adopted images that still carry their place in a branch come in the order of these places, images with one place
      as they arrived; the rest follows as it arrived, and only the notices of `AdoptedNotices` are added. */
  lemma AdoptedInBranchOrder(c: Context, refs: seq<Ref>, place: int)
    ensures var all, after := c.images + refs, AddReferences(c, refs); var n := ImportedPrefix(all);
            && |after.images| == |all| && after.images[n..] == all[n..]
            && (forall i | 0 <= i < n :: after.images[i].sourceOrder.Some?)
            && (forall i, j | 0 <= i < j < n :: after.images[i].sourceOrder.value <= after.images[j].sourceOrder.value)
            && Filter(after.images[..n], r => PlacedAt(place, r)) == Filter(all[..n], r => PlacedAt(place, r))
            && after == c.(images := after.images, notices := NoticesFor(c.notices, refs))
  {
    var all := c.images + refs;
    var n := ImportedPrefix(all);
    var front, sorted := all[..n], SortBy(all[..n], ImportOrder());
    AddKeepsImages(c, refs);
    ImportSorts(front);
    SortKeepsItems(front, ImportOrder());
    SortPermutes(front, ImportOrder());
    SortStable(front, ImportOrder(), r => PlacedAt(place, r));
    assert AddReferences(c, refs).images[..n] == sorted;
    forall i | 0 <= i < n ensures sorted[i].sourceOrder.Some? { assert sorted[i] in front; }
    forall i, j | 0 <= i < j < n ensures sorted[i].sourceOrder.value <= sorted[j].sourceOrder.value {
      assert ImportOrder()(sorted[i], sorted[j]);
      assert sorted[i] in front && sorted[j] in front;
    }
  }

  ghost function Responses(actions: seq<Action>): nat {
    if actions == [] then 0 else (if actions[0].DoRespond? then 1 else 0) + Responses(actions[1..])
  }

  ghost function Run(s: Retention, limits: Limits, actions: seq<Action>): Retention
    decreases |actions|
  {
    if actions == [] then s else Run(Step(s, limits, actions[0]), limits, actions[1..])
  }

  /** The round of a session is the number of responses accepted so far: no request, late commit, adoption or reset
      turns the clock by which images age. */
  lemma {:induction false} RoundCountsResponses(s: Retention, limits: Limits, actions: seq<Action>)
    ensures Run(s, limits, actions).session.round == s.session.round + Responses(actions)
    decreases |actions|
  {
    if actions != [] {
      RoundCountsResponses(Step(s, limits, actions[0]), limits, actions[1..]);
    }
  }

  /** A committed preview is what it was when made, except for the clock; a reset leaves nothing but the clock. */
  lemma CommitAdopts(s: Retention, limits: Limits, k: nat)
    requires k < |s.staged|
    ensures var t := Step(s, limits, DoCommit(k));
            && t.staged == s.staged && t.session.images == s.staged[k].images && t.session.notices == s.staged[k].notices
            && t.session.selected == s.staged[k].selected && t.session.noticeIds == s.staged[k].noticeIds
    ensures Step(s, limits, DoReset).session == Context([], map[], [], {}, s.session.round)
  {
  }
}
