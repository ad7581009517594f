/** Movement of memory entries between the active, archive and trash stores. */
module Maintenance {
  import opened Ordering
  import opened Entries
  import opened Optional

  const SECONDS_PER_DAY := 86400

  // How a stamp text reads as a point in time; None when it cannot be parsed.
  type Clock = Stamp -> Option<int>

  datatype Config = Config(decayDays: int, archiveDays: int)

  /** An unreadable stamp counts as "now", so a corrupt entry never looks old. */
  function ReadStamp(clock: Clock, stamp: Stamp, now: int): int {
    match clock(stamp) case Some(t) => t case None => now
  }

  predicate Unused(e: Entry, cfg: Config, clock: Clock, now: int) {
    !e.IsCorrection() && e.hits == 0 && ReadStamp(clock, e.lastUsed, now) < now - cfg.decayDays * SECONDS_PER_DAY
  }

  predicate Expired(e: Entry, cfg: Config, clock: Clock, now: int) {
    !e.IsCorrection() && ReadStamp(clock, e.lastUsed, now) < now - (cfg.decayDays + cfg.archiveDays) * SECONDS_PER_DAY
  }

  // ---- The specification: what each commit does to the three stores ----

  datatype Stores = Stores(active: seq<Entry>, archive: seq<Entry>, trash: seq<Entry>) {
    ghost function All(): multiset<Entry> {
      multiset(active) + multiset(archive) + multiset(trash)
    }
  }

  function AfterDecay(s: Stores, cfg: Config, clock: Clock, now: int): Stores {
    s.(active := Reject(s.active, e => Unused(e, cfg, clock, now)),
       archive := s.archive + Filter(s.active, e => Unused(e, cfg, clock, now)))
  }

  function AfterCleanup(s: Stores, cfg: Config, clock: Clock, now: int): Stores {
    s.(archive := Reject(s.archive, e => Expired(e, cfg, clock, now)),
       trash := s.trash + Filter(s.archive, e => Expired(e, cfg, clock, now)))
  }

  /** A dictionary built from a list keeps the last entry of each id. */
  function ById(es: seq<Entry>, id: string): Option<Entry> {
    if es == [] then None
    else if es[|es| - 1].id == id then Some(es[|es| - 1])
    else ById(es[..|es| - 1], id)
  }

  /** The snapshot entry `id` still exists with the content the decision was based on. */
  predicate StillCurrent(snapshot: seq<Entry>, current: seq<Entry>, id: string) {
    var was, now := ById(snapshot, id), ById(current, id);
    was.Some? && now.Some? && now.value.content == was.value.content
  }

  predicate DecisionsCurrent(snapshot: seq<Entry>, current: seq<Entry>, decided: set<string>) {
    forall id | id in decided :: StillCurrent(snapshot, current, id)
  }

  function Loses(losers: set<string>): Entry -> bool {
    (e: Entry) => e.id in losers
  }

  function AfterConflict(s: Stores, snapshot: seq<Entry>, losers: set<string>, winners: set<string>): Stores {
    if DecisionsCurrent(snapshot, s.active, losers + winners) then
      s.(active := Reject(s.active, Loses(losers)),
         archive := s.archive + Filter(s.active, Loses(losers)))
    else s
  }

  // ---- The transactions ----

  function View(store: MemoryStore): Stores
    reads store
  {
    Stores(store.active, store.archive, store.trash)
  }

  /** Partitions a list in two, keeping order. */
  method Partition(es: seq<Entry>, goes: Entry -> bool) returns (stay: seq<Entry>, leave: seq<Entry>)
    ensures stay == Reject(es, goes) && leave == Filter(es, goes)
    ensures leave == [] ==> stay == es
  {
    stay, leave := [], [];
    for i := 0 to |es|
      invariant stay == Reject(es[..i], goes) && leave == Filter(es[..i], goes)
    {
      assert es[..i + 1] == es[..i] + [es[i]];
      FilterSnoc(es[..i], es[i], goes);
      if goes(es[i]) {
        leave := leave + [es[i]];
      } else {
        stay := stay + [es[i]];
      }
    }
    assert es[..|es|] == es;
    KeepsAllIffNoneLeave(es, goes);
  }

  method DecayTransaction(store: MemoryStore, cfg: Config, clock: Clock, now: int)
    modifies store
    ensures View(store) == AfterDecay(old(View(store)), cfg, clock, now)
  {
    var active, toArchive := Partition(store.active, e => Unused(e, cfg, clock, now));
    if toArchive == [] {
      return;
    }
    store.archive := store.archive + toArchive;
    store.active := active;
  }

  method CleanupArchiveTransaction(store: MemoryStore, cfg: Config, clock: Clock, now: int)
    modifies store
    ensures View(store) == AfterCleanup(old(View(store)), cfg, clock, now)
  {
    var keep, purge := Partition(store.archive, e => Expired(e, cfg, clock, now));
    if purge == [] {
      return;
    }
    store.trash := store.trash + purge;
    store.archive := keep;
  }

  // ---- What counts as unchanged ----

  ghost predicate UniqueIds(es: seq<Entry>) {
    forall x, y | 0 <= x < y < |es| :: es[x].id != es[y].id
  }

  /** The lookup finds the last entry of the id. */
  lemma {:induction false} ByIdExact(es: seq<Entry>, id: string)
    ensures ById(es, id).None? <==> forall e | e in es :: e.id != id
    ensures ById(es, id).Some? ==> exists k :: 0 <= k < |es| && es[k] == ById(es, id).value && es[k].id == id
                                               && forall j | k < j < |es| :: es[j].id != id
    decreases |es|
  {
    if es != [] {
      var n := |es| - 1;
      assert es == es[..n] + [es[n]];
      ByIdExact(es[..n], id);
      if es[n].id != id && ById(es[..n], id).Some? {
        var k :| 0 <= k < n && es[..n][k] == ById(es[..n], id).value && es[k].id == id
                 && forall j | k < j < n :: es[..n][j].id != id;
        assert es[k] == ById(es, id).value && forall j | k < j < |es| :: es[j].id != id;
      }
    }
  }

  lemma {:induction false} ByIdUnique(es: seq<Entry>, e: Entry)
    requires UniqueIds(es) && e in es
    ensures ById(es, e.id) == Some(e)
    decreases |es|
  {
    var n := |es| - 1;
    assert es == es[..n] + [es[n]];
    if es[n] != e {
      var k :| 0 <= k < |es| && es[k] == e;
      ByIdUnique(es[..n], e);
    }
  }

  /** An entry of this id is in both lists, with the same content. */
  ghost predicate Unedited(snapshot: seq<Entry>, current: seq<Entry>, id: string) {
    exists s, e :: s in snapshot && e in current && s.id == id && e.id == id && s.content == e.content
  }

  lemma StillCurrentIff(snapshot: seq<Entry>, current: seq<Entry>, id: string)
    requires UniqueIds(snapshot) && UniqueIds(current)
    ensures StillCurrent(snapshot, current, id) <==> Unedited(snapshot, current, id)
  {
    ByIdExact(snapshot, id);
    ByIdExact(current, id);
    forall s, e | s in snapshot && e in current && s.id == id && e.id == id
      ensures ById(snapshot, id) == Some(s) && ById(current, id) == Some(e)
    {
      ByIdUnique(snapshot, s);
      ByIdUnique(current, e);
    }
  }

  /** Decisions stand exactly when every decided entry is still there with the content it was decided on. */
  lemma DecisionsCurrentIff(snapshot: seq<Entry>, current: seq<Entry>, decided: set<string>)
    requires UniqueIds(snapshot) && UniqueIds(current)
    ensures DecisionsCurrent(snapshot, current, decided) <==> forall id | id in decided :: Unedited(snapshot, current, id)
  {
    forall id | id in decided ensures StillCurrent(snapshot, current, id) <==> Unedited(snapshot, current, id) {
      StillCurrentIff(snapshot, current, id);
    }
  }

  /** A conflict commit takes the losers out exactly when no decided entry was edited or has gone since the snapshot. */
  lemma CommittedIffUnedited(s: Stores, snapshot: seq<Entry>, losers: set<string>, winners: set<string>)
    requires UniqueIds(snapshot) && UniqueIds(s.active)
    ensures AfterConflict(s, snapshot, losers, winners) ==
            if forall id | id in losers + winners :: Unedited(snapshot, s.active, id) then
              s.(active := Reject(s.active, Loses(losers)), archive := s.archive + Filter(s.active, Loses(losers)))
            else s
  {
    DecisionsCurrentIff(snapshot, s.active, losers + winners);
  }

  /** The locked commit of the arbitrated conflicts. */
  method ApplyConflictResults(store: MemoryStore, snapshot: seq<Entry>, losers: set<string>, winners: set<string>) returns (moved: nat)
    modifies store
    ensures View(store) == AfterConflict(old(View(store)), snapshot, losers, winners)
    ensures UniqueIds(snapshot) && UniqueIds(old(store.active)) ==>
              if forall id | id in losers + winners :: Unedited(snapshot, old(store.active), id) then
                && store.active == Reject(old(store.active), Loses(losers))
                && store.archive == old(store.archive) + Filter(old(store.active), Loses(losers))
              else store.active == old(store.active) && store.archive == old(store.archive)
    ensures moved == |store.archive| - |old(store.archive)|
  {
    var current := store.active;
    if UniqueIds(snapshot) && UniqueIds(current) { CommittedIffUnedited(View(store), snapshot, losers, winners); }
    var pending := losers + winners;
    while pending != {}
      invariant pending <= losers + winners
      invariant forall id | id in losers + winners - pending :: StillCurrent(snapshot, current, id)
      decreases pending
    {
      var id :| id in pending;
      if !StillCurrent(snapshot, current, id) {
        assert !DecisionsCurrent(snapshot, current, losers + winners);
        return 0;
      }
      pending := pending - {id};
    }
    assert DecisionsCurrent(snapshot, current, losers + winners);
    var kept, lost := Partition(current, Loses(losers));
    if lost == [] {
      return 0;
    }
    store.archive := store.archive + lost;
    store.active := kept;
    moved := |lost|;
  }

  // ---- Which entries the sweeps take ----

  /** Seconds since the entry was last used; none for a stamp that cannot be read. */
  function Age(e: Entry, clock: Clock, now: int): int {
    match clock(e.lastUsed) case Some(t) => now - t case None => 0
  }

  /** Decay archives exactly the ordinary entries without hits that were last used more than the decay days ago; one
      whose stamp cannot be read is never that old. */
  lemma DecayExact(s: Stores, cfg: Config, clock: Clock, now: int, e: Entry)
    requires e in s.active
    ensures var s' := AfterDecay(s, cfg, clock, now);
            var stale := e.entryType != "correction" && e.hits == 0 && Age(e, clock, now) > cfg.decayDays * 86400;
            && (e in s'.active <==> !stale)
            && (e in s'.archive <==> stale || e in s.archive)
            && s'.trash == s.trash
    ensures clock(e.lastUsed).None? && cfg.decayDays >= 0 ==> e in AfterDecay(s, cfg, clock, now).active
  {
  }

  /** Cleanup trashes exactly the archived ordinary entries that were last used more than the decay and archive days
      together ago. */
  lemma CleanupExact(s: Stores, cfg: Config, clock: Clock, now: int, e: Entry)
    requires e in s.archive
    ensures var s' := AfterCleanup(s, cfg, clock, now);
            var stale := e.entryType != "correction" && Age(e, clock, now) > (cfg.decayDays + cfg.archiveDays) * 86400;
            && (e in s'.archive <==> !stale)
            && (e in s'.trash <==> stale || e in s.trash)
            && s'.active == s.active
  {
  }

  // ---- Laws over any sequence of commits ----

  datatype Commit =
    | Decay(now: int)
    | Cleanup(now: int)
    | Conflict(snapshot: seq<Entry>, losers: set<string>, winners: set<string>)

  function Step(s: Stores, c: Commit, cfg: Config, clock: Clock): Stores {
    match c
    case Decay(now) => AfterDecay(s, cfg, clock, now)
    case Cleanup(now) => AfterCleanup(s, cfg, clock, now)
    case Conflict(snapshot, losers, winners) => AfterConflict(s, snapshot, losers, winners)
  }

  function Run(s: Stores, cs: seq<Commit>, cfg: Config, clock: Clock): Stores
    decreases |cs|
  {
    if cs == [] then s else Run(Step(s, cs[0], cfg, clock), cs[1..], cfg, clock)
  }

  lemma StepConserves(s: Stores, c: Commit, cfg: Config, clock: Clock)
    ensures Step(s, c, cfg, clock).All() == s.All()
  {
    match c
    case Decay(now) => FilterSplits(s.active, e => Unused(e, cfg, clock, now));
    case Cleanup(now) => FilterSplits(s.archive, e => Expired(e, cfg, clock, now));
    case Conflict(_, losers, _) => FilterSplits(s.active, Loses(losers));
  }

  /** No entry is lost, duplicated or altered by any sequence of commits. */
  lemma {:induction false} RunConserves(s: Stores, cs: seq<Commit>, cfg: Config, clock: Clock)
    ensures Run(s, cs, cfg, clock).All() == s.All()
    decreases |cs|
  {
    if cs != [] {
      StepConserves(s, cs[0], cfg, clock);
      RunConserves(Step(s, cs[0], cfg, clock), cs[1..], cfg, clock);
    }
  }

  /** A conflict commit leaves the corrections alone exactly when it is refused or names none of their ids. */
  lemma ConflictKeepsCorrections(s: Stores, snapshot: seq<Entry>, losers: set<string>, winners: set<string>)
    ensures Corrections(AfterConflict(s, snapshot, losers, winners).active) == Corrections(s.active) <==>
            !DecisionsCurrent(snapshot, s.active, losers + winners)
            || forall e | e in s.active && e.IsCorrection() :: e.id !in losers
  {
    if DecisionsCurrent(snapshot, s.active, losers + winners) {
      var lost := Loses(losers);
      if forall e | e in s.active && e.IsCorrection() :: e.id !in losers {
        FilterAfterReject(s.active, lost, (e: Entry) => e.IsCorrection());
      } else {
        var e :| e in s.active && e.IsCorrection() && e.id in losers;
        assert e in Corrections(s.active);
        assert e !in Reject(s.active, lost);
        assert e !in Corrections(Reject(s.active, lost));
      }
    }
  }

  ghost predicate ArchivedBy(c: Commit, e: Entry, cfg: Config, clock: Clock) {
    (c.Decay? && Unused(e, cfg, clock, c.now)) || (c.Conflict? && e.id in c.losers)
  }

  ghost predicate TrashedBy(c: Commit, e: Entry, cfg: Config, clock: Clock) {
    c.Cleanup? && Expired(e, cfg, clock, c.now)
  }

  lemma StepMoves(s: Stores, c: Commit, cfg: Config, clock: Clock, e: Entry)
    ensures var s' := Step(s, c, cfg, clock);
            && (multiset(s'.trash)[e] > multiset(s.trash)[e] ==> TrashedBy(c, e, cfg, clock))
            && (multiset(s'.active)[e] < multiset(s.active)[e] ==> ArchivedBy(c, e, cfg, clock))
  {
    match c
    case Decay(now) =>
      FilterCount(s.active, e => Unused(e, cfg, clock, now), e);
    case Cleanup(now) =>
      FilterCount(s.archive, e => Expired(e, cfg, clock, now), e);
    case Conflict(_, losers, _) =>
      FilterCount(s.active, Loses(losers), e);
  }

  /** An entry leaves the active store only unused past the decay limit or as an arbitrated loser,
      and reaches the trash only past the decay and archive limits together. */
  lemma {:induction false} RunMoves(s: Stores, cs: seq<Commit>, cfg: Config, clock: Clock, e: Entry)
    ensures var s' := Run(s, cs, cfg, clock);
            && (multiset(s'.trash)[e] > multiset(s.trash)[e] ==> exists c :: c in cs && TrashedBy(c, e, cfg, clock))
            && (multiset(s'.active)[e] < multiset(s.active)[e] ==> exists c :: c in cs && ArchivedBy(c, e, cfg, clock))
    decreases |cs|
  {
    if cs != [] {
      StepMoves(s, cs[0], cfg, clock, e);
      RunMoves(Step(s, cs[0], cfg, clock), cs[1..], cfg, clock, e);
      assert forall c | c in cs[1..] :: c in cs;
      assert cs[0] in cs;
    }
  }

  /** Repeating decay or cleanup at the same moment changes nothing. */
  lemma SweepsIdempotent(s: Stores, cfg: Config, clock: Clock, now: int)
    ensures var s' := AfterDecay(s, cfg, clock, now); AfterDecay(s', cfg, clock, now) == s'
    ensures var s' := AfterCleanup(s, cfg, clock, now); AfterCleanup(s', cfg, clock, now) == s'
  {
    RejectNone(AfterDecay(s, cfg, clock, now).active, e => Unused(e, cfg, clock, now));
    RejectNone(AfterCleanup(s, cfg, clock, now).archive, e => Expired(e, cfg, clock, now));
  }

  // ---- A winner of one group may lose another ----

  /** After a committed arbitration, an active entry is still active exactly when it lost no group. */
  lemma WinnerStaysIffNotLoser(s: Stores, snapshot: seq<Entry>, losers: set<string>, winners: set<string>, e: Entry)
    requires DecisionsCurrent(snapshot, s.active, losers + winners)
    requires e in s.active && e.id in winners
    ensures e in AfterConflict(s, snapshot, losers, winners).active <==> e.id !in losers
  {
  }
}
