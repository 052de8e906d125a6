/** Batched deletion with a commit per batch: expired observables, and expired audit events. */
module Retention {
  import opened Wrappers
  import opened Observables
  import opened ScoreState
  import opened ScoreOps
  import D = ScoreDatabase

  // ── Observables ───────────────────────────────────────────────────────

  /** How a run ended: the deletions it reports, or a failed batch after some committed ones, or a refused argument. */
  datatype Outcome = Finished(total: nat) | Failed(committed: nat) | Refused

  /** `coalesce(last_seen, created_at)`. */
  function SeenOrCreated(r: Row, created: int): int {
    if r.lastSeen.Some? then r.lastSeen.value else created
  }

  function ExpiredKeys(s: Store, created: Key -> int, cutoff: int): set<Key> {
    set k | k in s.rows && SeenOrCreated(s.rows[k], created(k)) < cutoff
  }

  /** At most n members: the LIMIT of a query, in an order that does not matter here. */
  method Limit<T(==)>(xs: set<T>, n: nat) returns (some: set<T>)
    ensures some <= xs && |some| == if n < |xs| then n else |xs|
  {
    some := {};
    var rest := xs;
    while rest != {} && |some| < n
      invariant some !! rest && some + rest == xs && |some| + |rest| == |xs| && |some| <= n
      decreases |rest|
    {
      var x :| x in rest;
      some, rest := some + {x}, rest - {x};
    }
  }

  lemma DeleteMore(s: Store, a: set<Key>, b: set<Key>)
    ensures DeleteObservables(DeleteObservables(s, a), b) == DeleteObservables(s, a + b)
  {
    var x, y := DeleteObservables(DeleteObservables(s, a), b), DeleteObservables(s, a + b);
    assert x.rows == y.rows && x.sources == y.sources && x.links == y.links;
  }

  lemma DeleteNone(s: Store)
    ensures DeleteObservables(s, {}) == s
  {
    var x := DeleteObservables(s, {});
    assert x.rows == s.rows && x.sources == s.sources && x.links == s.links;
  }

  /** Last seen, or else created, more than so many days before now. */
  predicate IsOld(r: Row, created: int, days: int, now: int) {
    (if r.lastSeen == None then created else r.lastSeen.value) + days * 24 * 60 * 60 < now
  }

  /** The observables are gone with their sources and links, and nothing else is changed. */
  ghost predicate IsGone(s: Store, t: Store, gone: set<Key>) {
    && t.rows == s.rows - gone && t.feeds == s.feeds && t.reports == s.reports
    && (forall p :: p in t.sources <==> p in s.sources && p.obs !in gone)
    && (forall p :: p in t.links <==> p in s.links && p.obs !in gone)
    && (forall p :: p in t.sources ==> t.sources[p] == s.sources[p]) && (forall p :: p in t.links ==> t.links[p] == s.links[p])
  }

  lemma DeletedIsGone(s: Store, keys: set<Key>)
    ensures IsGone(s, DeleteObservables(s, keys), keys)
  {
  }

  lemma ExpiredIsOld(s: Store, created: Key -> int, days: int, now: int)
    ensures forall k :: k in ExpiredKeys(s, created, now - days * DAY) <==> k in s.rows && IsOld(s.rows[k], created(k), days, now)
  {
  }

  /** Only what is expired goes, with everything that refers to it. A finished run leaves no expired row that was not locked at
      its last query; a failed one leaves exactly its committed batches. locked(i) are the rows other transactions hold at query i. */
  method EnforceRetention(
      db: D.Database, created: Key -> int, retentionDays: int, now: int, batchSize: int, locked: nat -> set<Key>, fails: nat -> bool)
    returns (outcome: Outcome, ghost deleted: set<Key>, ghost queries: nat)
    requires Valid(db.State())
    modifies db`rows, db`sources, db`links
    ensures Valid(db.State()) && db.State() == DeleteObservables(old(db.State()), deleted)
    ensures deleted <= ExpiredKeys(old(db.State()), created, now - retentionDays * DAY)
    ensures outcome == Refused <==> retentionDays < 0 || batchSize < 1
    ensures retentionDays <= 0 || outcome == Refused ==> deleted == {}
    ensures outcome.Finished? ==> outcome.total == |deleted|
    ensures outcome.Failed? ==> outcome.committed == |deleted| && fails(queries)
    ensures outcome.Finished? && retentionDays > 0 ==>
      ExpiredKeys(db.State(), created, now - retentionDays * DAY) <= locked(queries)
    ensures IsGone(old(db.State()), db.State(), deleted)
    ensures forall k :: k in deleted ==> k in old(db.rows) && IsOld(old(db.rows)[k], created(k), retentionDays, now)
    ensures outcome.Finished? && retentionDays > 0 ==>
      forall k :: k in db.rows && IsOld(db.rows[k], created(k), retentionDays, now) ==> k in locked(queries)
  {
    ExpiredIsOld(db.State(), created, retentionDays, now);
    deleted, queries := {}, 0;
    DeleteNone(db.State());
    DeletedIsGone(db.State(), {});
    if retentionDays < 0 || batchSize < 1 {
      return Refused, deleted, queries;
    }
    if retentionDays == 0 {
      return Finished(0), deleted, queries;
    }
    ghost var s := db.State();
    var total, failed;
    total, failed, deleted, queries := DeleteExpired(db, created, now - retentionDays * DAY, batchSize, locked, fails);
    DeleteKeeps(s, deleted);
    DeletedIsGone(s, deleted);
    ExpiredIsOld(db.State(), created, retentionDays, now);
    outcome := if failed then Failed(total) else Finished(total);
  }

  method DeleteExpired(
      db: D.Database, created: Key -> int, cutoff: int, batchSize: nat, locked: nat -> set<Key>, fails: nat -> bool)
    returns (total: nat, failed: bool, ghost deleted: set<Key>, ghost queries: nat)
    requires batchSize > 0
    modifies db`rows, db`sources, db`links
    ensures db.State() == DeleteObservables(old(db.State()), deleted)
    ensures deleted <= ExpiredKeys(old(db.State()), created, cutoff) && total == |deleted|
    ensures failed ==> fails(queries)
    ensures !failed ==> ExpiredKeys(db.State(), created, cutoff) <= locked(queries)
  {
    ghost var s := db.State();
    DeleteNone(s);
    deleted, queries := {}, 0;
    total, failed := 0, false;
    var i := 0;
    while true
      invariant db.State() == DeleteObservables(s, deleted)
      invariant deleted <= ExpiredKeys(s, created, cutoff) && total == |deleted| && queries == i
      decreases |db.rows|
    {
      if fails(i) {
        failed := true;
        return;
      }
      var unlocked := ExpiredKeys(db.State(), created, cutoff) - locked(i);
      var ids := Limit(unlocked, batchSize);
      if ids == {} {
        return;
      }
      DeleteStep(s, db.State(), created, deleted, ids, cutoff);
      DeleteBatch(db, ids);
      total, i := total + |ids|, i + 1;
      deleted, queries := deleted + ids, queries + 1;
    }
  }

  lemma DeleteStep(s: Store, t: Store, created: Key -> int, deleted: set<Key>, ids: set<Key>, cutoff: int)
    requires t == DeleteObservables(s, deleted) && ids <= ExpiredKeys(t, created, cutoff) && ids != {}
    ensures DeleteObservables(t, ids) == DeleteObservables(s, deleted + ids)
    ensures deleted + ids <= deleted + ExpiredKeys(s, created, cutoff)
    ensures |deleted + ids| == |deleted| + |ids|
    ensures |DeleteObservables(t, ids).rows| < |t.rows|
  {
    DeleteMore(s, deleted, ids);
    assert deleted !! ids;
    FewerKeys(t.rows, ids);
    assert DeleteObservables(t, ids).rows == t.rows - ids;
  }

  lemma FewerKeys<K, V>(m: map<K, V>, ids: set<K>)
    requires ids <= m.Keys && ids != {}
    ensures |m - ids| < |m|
  {
    assert m.Keys == (m - ids).Keys + ids;
    assert |m| == |m.Keys| && |m - ids| == |(m - ids).Keys|;
  }

  /** Links, sources, then the rows themselves; then the commit. */
  method DeleteBatch(db: D.Database, ids: set<Key>)
    modifies db`rows, db`sources, db`links
    ensures db.State() == DeleteObservables(old(db.State()), ids)
  {
    db.links := map p | p in db.links && p.obs !in ids :: db.links[p];
    db.sources := map p | p in db.sources && p.obs !in ids :: db.sources[p];
    db.rows := db.rows - ids;
  }

  // ── Audit events ──────────────────────────────────────────────────────

  const MIN_RETENTION_DAYS := 30
  const MAX_RETENTION_DAYS := 3650

  /** ORDER BY occurred_at, id. */
  predicate Before(events: map<nat, int>, a: nat, b: nat)
    requires a in events && b in events
  {
    events[a] < events[b] || (events[a] == events[b] && a <= b)
  }

  predicate IsOldest(events: map<nat, int>, xs: set<nat>, x: nat)
    requires xs <= events.Keys
  {
    x in xs && forall y :: y in xs ==> Before(events, x, y)
  }

  lemma {:induction false} OldestExists(events: map<nat, int>, xs: set<nat>, x: nat)
    requires xs <= events.Keys && x in xs
    ensures exists m :: IsOldest(events, xs, m)
    decreases |xs|
  {
    var rest := xs - {x};
    assert forall y :: y in xs ==> y == x || y in rest;
    if y :| y in rest {
      OldestExists(events, rest, y);
      var m :| IsOldest(events, rest, m);
      assert IsOldest(events, xs, if Before(events, x, m) then x else m);
    } else {
      assert IsOldest(events, xs, x);
    }
  }

  ghost predicate AllBefore(events: map<nat, int>, some: set<nat>, rest: set<nat>)
    requires some <= events.Keys && rest <= events.Keys
  {
    forall a, b :: a in some && b in rest ==> Before(events, a, b)
  }

  /** The LIMIT of the ordered query: the oldest n. */
  method LimitOldest(events: map<nat, int>, xs: set<nat>, n: nat) returns (some: set<nat>)
    requires xs <= events.Keys
    ensures some <= xs && AllBefore(events, some, xs - some)
    ensures n > 0 && xs != {} ==> some != {}
  {
    some := {};
    var rest := xs;
    while (exists x :: x in rest) && |some| < n
      invariant some !! rest && some + rest == xs && AllBefore(events, some, rest)
      invariant |some| + |rest| == |xs|
      decreases |rest|
    {
      ghost var any :| any in rest;
      OldestExists(events, rest, any);
      var x :| x in rest && IsOldest(events, rest, x);
      some, rest := some + {x}, rest - {x};
    }
    assert rest == xs - some;
  }

  function ExpiredIn(events: map<nat, int>, cutoff: int): set<nat> {
    set e | e in events && events[e] < cutoff
  }

  /** So many of the expired events are gone, oldest first. */
  ghost predicate Purged(start: map<nat, int>, events: map<nat, int>, cutoff: int, deleted: set<nat>) {
    && events == start - deleted && deleted <= ExpiredIn(start, cutoff)
    && AllBefore(start, deleted, ExpiredIn(start, cutoff) - deleted)
  }

  /** The deleted events are gone and occurred before the cutoff, and every other event did not, or is younger than each of them. */
  ghost predicate OldestGone(start: map<nat, int>, events: map<nat, int>, cutoff: int, deleted: set<nat>) {
    && (forall e :: e in events <==> e in start && e !in deleted) && (forall e :: e in events ==> events[e] == start[e])
    && (forall e :: e in deleted ==> e in start && start[e] < cutoff)
    && forall d, e :: d in deleted && d in start && e in events && events[e] < cutoff ==>
      start[d] < events[e] || (start[d] == events[e] && d < e)
  }

  lemma PurgedIsOldest(start: map<nat, int>, events: map<nat, int>, cutoff: int, deleted: set<nat>)
    requires Purged(start, events, cutoff, deleted)
    ensures OldestGone(start, events, cutoff, deleted)
  {
    forall d, e | d in deleted && e in events && events[e] < cutoff
      ensures start[d] < events[e] || (start[d] == events[e] && d < e)
    {
      assert e in ExpiredIn(start, cutoff) - deleted && Before(start, d, e);
    }
  }

  lemma PurgeStep(start: map<nat, int>, events: map<nat, int>, cutoff: int, deleted: set<nat>, ids: set<nat>)
    requires Purged(start, events, cutoff, deleted)
    requires ids <= ExpiredIn(events, cutoff) && AllBefore(events, ids, ExpiredIn(events, cutoff) - ids)
    ensures Purged(start, events - ids, cutoff, deleted + ids) && deleted !! ids
  {
    var expired := ExpiredIn(start, cutoff);
    assert ExpiredIn(events, cutoff) == expired - deleted;
    OlderFirst(start, expired, deleted, ids);
    assert (start - deleted) - ids == start - (deleted + ids);
  }

  class AuditLog {
    /** When each event occurred. */
    var events: map<nat, int>

    function Expired(cutoff: int): set<nat>
      reads this
    {
      ExpiredIn(events, cutoff)
    }

    /** The purge removes exactly the expired events, or, when a batch fails, the oldest ones, as many as it reports. */
    method Purge(retentionDays: int, now: int, batchSize: int, fails: nat -> bool)
      returns (outcome: Outcome, ghost deleted: set<nat>)
      modifies this
      ensures Purged(old(events), events, now - retentionDays * DAY, deleted)
      ensures outcome == Refused <==> batchSize < 1 || retentionDays < 30 || retentionDays > 3650
      ensures OldestGone(old(events), events, now - retentionDays * 24 * 60 * 60, deleted)
      ensures outcome == Refused ==> deleted == {}
      ensures outcome.Finished? ==> deleted == old(Expired(now - retentionDays * DAY)) && outcome.total == |deleted|
      ensures outcome.Failed? ==> outcome.committed == |deleted|
    {
      deleted := {};
      NothingPurged(events, now - retentionDays * DAY);
      if batchSize < 1 || retentionDays < MIN_RETENTION_DAYS || retentionDays > MAX_RETENTION_DAYS {
        PurgedIsOldest(events, events, now - retentionDays * DAY, deleted);
        return Refused, deleted;
      }
      ghost var start := events;
      var total, failed;
      total, failed, deleted := PurgeExpired(now - retentionDays * DAY, batchSize, fails);
      PurgedIsOldest(start, events, now - retentionDays * DAY, deleted);
      outcome := if failed then Failed(total) else Finished(total);
    }

    method PurgeExpired(cutoff: int, batchSize: nat, fails: nat -> bool)
      returns (total: nat, failed: bool, ghost deleted: set<nat>)
      requires batchSize > 0
      modifies this
      ensures Purged(old(events), events, cutoff, deleted) && total == |deleted|
      ensures !failed ==> deleted == ExpiredIn(old(events), cutoff)
    {
      ghost var start := events;
      var i := 0;
      total, failed, deleted := 0, false, {};
      NothingPurged(start, cutoff);
      while true
        invariant Purged(start, events, cutoff, deleted) && total == |deleted|
        decreases |events|
      {
        if fails(i) {
          failed := true;
          return;
        }
        var ids := LimitOldest(events, Expired(cutoff), batchSize);
        if ids == {} {
          AllPurged(start, events, cutoff, deleted);
          return;
        }
        PurgeStep(start, events, cutoff, deleted, ids);
        FewerKeys(events, ids);
        events := events - ids;
        total, i := total + |ids|, i + 1;
        deleted := deleted + ids;
      }
    }
  }

  lemma NothingPurged(start: map<nat, int>, cutoff: int)
    ensures Purged(start, start, cutoff, {})
  {
    assert start - {} == start;
  }

  lemma AllPurged(start: map<nat, int>, events: map<nat, int>, cutoff: int, deleted: set<nat>)
    requires Purged(start, events, cutoff, deleted) && ExpiredIn(events, cutoff) == {}
    ensures deleted == ExpiredIn(start, cutoff)
  {
    forall e | e in ExpiredIn(start, cutoff)
      ensures e in deleted
    {
      assert e !in ExpiredIn(events, cutoff);
    }
  }

  lemma OlderFirst(start: map<nat, int>, expired: set<nat>, deleted: set<nat>, ids: set<nat>)
    requires expired <= start.Keys && deleted <= expired && ids <= expired - deleted
    requires AllBefore(start, deleted, expired - deleted) && AllBefore(start - deleted, ids, expired - deleted - ids)
    ensures AllBefore(start, deleted + ids, expired - (deleted + ids))
  {
    forall a, b | a in deleted + ids && b in expired - (deleted + ids)
      ensures Before(start, a, b)
    {
      if a in ids {
        assert Before(start - deleted, a, b);
      }
    }
  }
}
