/** Feed ingestion: batches committed one by one, deadlock retries, and what a crash or another order of batches changes. */
module Ingest {
  import opened Wrappers
  import opened Observables
  import opened ScoreState
  import opened ScoreOps
  import D = ScoreDatabase

  const BATCH_SIZE := 500
  const MAX_RETRIES := 3

  type Batch = map<Key, Sighting>

  /** Deduplication within a batch: the last occurrence of a key wins. */
  function LastWins(raws: seq<Raw>): map<Key, Raw> {
    if raws == [] then map[] else LastWins(raws[..|raws| - 1])[raws[|raws| - 1].key := raws[|raws| - 1]]
  }

  function BatchEnd(start: nat, n: nat, size: nat): (end: nat)
    requires size > 0 && start < n
    ensures start < end <= n
  {
    if start + size <= n then start + size else n
  }

  /** The deduplicated batches of a run, from a start index on. */
  function Batches(raws: seq<Raw>, start: nat, size: nat, feedDefault: int, now: int): seq<Batch>
    requires size > 0 && start <= |raws|
    decreases |raws| - start
  {
    if start == |raws| then []
    else
      var stop := BatchEnd(start, |raws|, size);
      [Resolve(LastWins(raws[start..stop]), feedDefault, now)] + Batches(raws, stop, size, feedDefault, now)
  }

  function RunBatches(s: Store, feed: nat, batches: seq<Batch>): Store {
    if batches == [] then s
    else IngestBatch(RunBatches(s, feed, batches[..|batches| - 1]), feed, batches[|batches| - 1])
  }

  // ── One batch, absorbed ───────────────────────────────────────────────

  predicate SeenSince(t: Option<int>, last: int) {
    t.Some? && t.value >= last
  }

  /** The key is stored at least as high and as late as the batch has it, and its score is up to date. */
  ghost predicate AbsorbsKey(s: Store, feed: nat, k: Key, x: Sighting) {
    var p := SourceKey(k, feed);
    && k in s.rows && SeenSince(s.rows[k].lastSeen, x.last) && s.rows[k].score == RecomputedScore(s, k)
    && p in s.sources && s.sources[p].confidence >= x.confidence
    && s.sources[p].native >= x.confidence && s.sources[p].lastSeen >= x.last
  }

  ghost predicate Absorbs(s: Store, feed: nat, batch: Batch) {
    feed in s.feeds && forall k :: k in batch ==> AbsorbsKey(s, feed, k, batch[k])
  }

  /** The state a batch's statements build, before the recompute. */
  function Upserted(s: Store, feed: nat, batch: Batch): Store {
    s.(rows := UpsertRows(s, batch), sources := UpsertSources(s, feed, batch))
  }

  lemma UpsertedSource(s: Store, feed: nat, batch: Batch, p: SourceKey)
    ensures p in BatchSources(batch, feed) <==> p.feed == feed && p.obs in batch
    ensures ConfidenceOf(Upserted(s, feed, batch), p) ==
      if p.feed == feed && p.obs in batch
      then (if p in s.sources then Some(Max(s.sources[p].confidence, batch[p.obs].confidence)) else Some(batch[p.obs].confidence))
      else ConfidenceOf(s, p)
  {
  }

  lemma ElsewhereUntouched(s: Store, feed: nat, batch: Batch, k: Key)
    requires k in s.rows && k !in batch && feed in s.feeds
    ensures IngestBatch(s, feed, batch).rows[k] == s.rows[k]
    ensures RecomputedScore(IngestBatch(s, feed, batch), k) == RecomputedScore(s, k)
  {
    var t := Upserted(s, feed, batch);
    RecomputeKeepsInputs(t, batch.Keys, k);
    forall p: SourceKey | p.obs == k
      ensures ConfidenceOf(s, p) == ConfidenceOf(t, p)
    {
      UpsertedSource(s, feed, batch, p);
    }
    ScoresEqual(s, t, k);
  }

  /** The same columns and inputs give the same recomputed score. */
  lemma ScoresEqual(s: Store, t: Store, k: Key)
    requires k in s.rows && k in t.rows && s.rows[k].manual == t.rows[k].manual && s.rows[k].override_ == t.rows[k].override_
    requires s.rows[k].score == t.rows[k].score || Inputs(s, k) != {}
    requires SameSources(s, t, k) && SameLinks(s, t, k)
    ensures RecomputedScore(s, k) == RecomputedScore(t, k)
  {
    SubsetFeeds(s, t, k);
    SubsetFeeds(t, s, k);
    SubsetLinks(s, t, k);
    SubsetLinks(t, s, k);
    FloorIsMax(s, k);
  }

  lemma AbsorbsAfter(s: Store, feed: nat, batch: Batch)
    requires feed in s.feeds
    ensures Absorbs(IngestBatch(s, feed, batch), feed, batch)
  {
    var t := Upserted(s, feed, batch);
    forall k | k in batch
      ensures AbsorbsKey(IngestBatch(s, feed, batch), feed, k, batch[k])
    {
      UpsertedSource(s, feed, batch, SourceKey(k, feed));
      RecomputeKeepsInputs(t, batch.Keys, k);
    }
  }

  lemma AbsorbsStays(s: Store, feed: nat, batch: Batch, other: nat, more: Batch)
    requires Absorbs(s, feed, batch)
    ensures Absorbs(IngestBatch(s, other, more), feed, batch)
  {
    if other in s.feeds {
      var t := Upserted(s, other, more);
      forall k | k in batch
        ensures AbsorbsKey(IngestBatch(s, other, more), feed, k, batch[k])
      {
        UpsertedSource(s, other, more, SourceKey(k, feed));
        if k in more {
          RecomputeKeepsInputs(t, more.Keys, k);
        } else {
          ElsewhereUntouched(s, other, more, k);
        }
      }
    }
  }

  lemma AbsorbedNoop(s: Store, feed: nat, batch: Batch)
    requires Absorbs(s, feed, batch)
    ensures IngestBatch(s, feed, batch) == s
  {
    forall k | k in batch
      ensures AbsorbsKey(s, feed, k, batch[k])
    {
    }
    assert UpsertRows(s, batch) == s.rows;
    forall p | p in BatchSources(batch, feed)
      ensures p in s.sources && MergeSource(s.sources[p], batch[p.obs]) == s.sources[p]
    {
      assert AbsorbsKey(s, feed, p.obs, batch[p.obs]);
    }
    assert UpsertSources(s, feed, batch) == s.sources;
    assert Recompute(s, batch.Keys).rows == s.rows;
  }

  // ── Crash and re-run ──────────────────────────────────────────────────

  lemma {:induction false} FeedsStay(s: Store, feed: nat, batches: seq<Batch>)
    ensures RunBatches(s, feed, batches).feeds == s.feeds
  {
    if batches != [] {
      FeedsStay(s, feed, batches[..|batches| - 1]);
    }
  }

  /** After a run every one of its batches is absorbed. */
  lemma {:induction false} RunAbsorbs(s: Store, feed: nat, batches: seq<Batch>, i: nat)
    requires feed in s.feeds && i < |batches|
    ensures Absorbs(RunBatches(s, feed, batches), feed, batches[i])
    decreases |batches|
  {
    var front, last := batches[..|batches| - 1], batches[|batches| - 1];
    FeedsStay(s, feed, front);
    if i == |batches| - 1 {
      AbsorbsAfter(RunBatches(s, feed, front), feed, last);
    } else {
      RunAbsorbs(s, feed, front, i);
      AbsorbsStays(RunBatches(s, feed, front), feed, batches[i], feed, last);
    }
  }

  /** Any number of the batches again, after any committed prefix: the longer of the two prefixes is what was run. */
  lemma {:induction false} RerunPrefix(s: Store, feed: nat, batches: seq<Batch>, p: nat, q: nat)
    requires feed in s.feeds && p <= |batches| && q <= |batches|
    ensures RunBatches(RunBatches(s, feed, batches[..p]), feed, batches[..q]) ==
      RunBatches(s, feed, batches[..if p < q then q else p])
    decreases q
  {
    if q > 0 {
      RerunPrefix(s, feed, batches, p, q - 1);
      assert batches[..q][..q - 1] == batches[..q - 1];
      if q <= p {
        RunAbsorbs(s, feed, batches[..p], q - 1);
        AbsorbedNoop(RunBatches(s, feed, batches[..p]), feed, batches[q - 1]);
      } else {
        assert batches[..if p < q - 1 then q - 1 else p] == batches[..q - 1];
      }
    }
  }

  /** A crash after any committed prefix, then a full re-run with the same input and clock: exactly the state of one full run. */
  lemma CrashSafe(s: Store, feed: nat, batches: seq<Batch>, p: nat)
    requires feed in s.feeds && p <= |batches|
    ensures RunBatches(RunBatches(s, feed, batches[..p]), feed, batches) == RunBatches(s, feed, batches)
  {
    RerunPrefix(s, feed, batches, p, |batches|);
    assert batches[..|batches|] == batches;
  }

  // ── Any order of batches ──────────────────────────────────────────────

  predicate RowAlike(a: Row, b: Row) {
    a == b.(firstSeen := a.firstSeen)
  }

  predicate SourceAlike(a: Source, b: Source) {
    a == b.(firstSeen := a.firstSeen)
  }

  /** The same state, first-seen times aside. */
  ghost predicate Alike(s: Store, t: Store) {
    && s.links == t.links && s.feeds == t.feeds && s.reports == t.reports
    && s.rows.Keys == t.rows.Keys && (forall k :: k in s.rows ==> RowAlike(s.rows[k], t.rows[k]))
    && SourcesAlike(s, t)
  }

  ghost predicate SourcesAlike(s: Store, t: Store) {
    s.sources.Keys == t.sources.Keys && forall p :: p in s.sources ==> SourceAlike(s.sources[p], t.sources[p])
  }

  lemma AlikeScores(s: Store, t: Store, k: Key)
    requires k in s.rows && k in t.rows && SourcesAlike(s, t) && s.links == t.links
    requires s.rows[k].manual == t.rows[k].manual && s.rows[k].override_ == t.rows[k].override_
    requires s.rows[k].score == t.rows[k].score || Inputs(s, k) != {}
    ensures RecomputedScore(s, k) == RecomputedScore(t, k)
  {
    forall p: SourceKey | p.obs == k
      ensures ConfidenceOf(s, p) == ConfidenceOf(t, p)
    {
      assert p in s.sources <==> p in t.sources;
    }
    ScoresEqual(s, t, k);
  }

  lemma UpsertedAlike(s: Store, t: Store, feed: nat, batch: Batch)
    requires Alike(s, t)
    ensures Alike(Upserted(s, feed, batch), Upserted(t, feed, batch))
  {
    var u, v := Upserted(s, feed, batch), Upserted(t, feed, batch);
    forall p | p in u.sources
      ensures p in v.sources && SourceAlike(u.sources[p], v.sources[p])
    {
      assert p in s.sources <==> p in t.sources;
    }
    assert u.sources.Keys == v.sources.Keys;
    forall k | k in u.rows
      ensures k in v.rows && RowAlike(u.rows[k], v.rows[k])
    {
      assert k in s.rows <==> k in t.rows;
    }
    assert u.rows.Keys == v.rows.Keys;
  }

  /** Ingesting the same batch keeps states alike. */
  lemma IngestAlike(s: Store, t: Store, feed: nat, batch: Batch)
    requires Alike(s, t)
    ensures Alike(IngestBatch(s, feed, batch), IngestBatch(t, feed, batch))
  {
    if feed in s.feeds {
      UpsertedAlike(s, t, feed, batch);
      var u, v := Upserted(s, feed, batch), Upserted(t, feed, batch);
      forall k | k in u.rows
        ensures RowAlike(Recompute(u, batch.Keys).rows[k], Recompute(v, batch.Keys).rows[k])
      {
        AlikeScores(u, v, k);
      }
    }
  }

  /** What a batch leaves of one stored source. */
  function SourceAfter(old_: Option<Source>, x: Sighting): Source {
    if old_.Some? then MergeSource(old_.value, x) else Source(x.confidence, x.confidence, x.first, x.last)
  }

  function SourceOf(s: Store, p: SourceKey): Option<Source> {
    if p in s.sources then Some(s.sources[p]) else None
  }

  lemma SourceAfterBatch(s: Store, feed: nat, batch: Batch, p: SourceKey)
    requires feed in s.feeds
    ensures SourceOf(IngestBatch(s, feed, batch), p) ==
      if p.feed == feed && p.obs in batch then Some(SourceAfter(SourceOf(s, p), batch[p.obs])) else SourceOf(s, p)
  {
    UpsertedSource(s, feed, batch, p);
  }

  lemma SourceSightingsCommute(old_: Option<Source>, x: Sighting, y: Sighting)
    ensures SourceAlike(SourceAfter(Some(SourceAfter(old_, x)), y), SourceAfter(Some(SourceAfter(old_, y)), x))
  {
  }

  /** The sources after two batches do not depend on their order. */
  lemma SourcesCommute(s: Store, f: nat, a: Batch, g: nat, b: Batch)
    requires f in s.feeds && g in s.feeds
    ensures SourcesAlike(IngestBatch(IngestBatch(s, f, a), g, b), IngestBatch(IngestBatch(s, g, b), f, a))
  {
    var fg, gf := IngestBatch(IngestBatch(s, f, a), g, b), IngestBatch(IngestBatch(s, g, b), f, a);
    forall p
      ensures p in fg.sources <==> p in gf.sources
      ensures p in fg.sources ==> SourceAlike(fg.sources[p], gf.sources[p])
    {
      SourceCommutes(s, f, a, g, b, p);
      assert p in fg.sources <==> SourceOf(fg, p).Some?;
      assert p in gf.sources <==> SourceOf(gf, p).Some?;
    }
    assert fg.sources.Keys == gf.sources.Keys;
  }

  predicate MaybeAlike(a: Option<Source>, b: Option<Source>) {
    if a.Some? && b.Some? then SourceAlike(a.value, b.value) else a == b
  }

  lemma SourceCommutes(s: Store, f: nat, a: Batch, g: nat, b: Batch, p: SourceKey)
    requires f in s.feeds && g in s.feeds
    ensures MaybeAlike(SourceOf(IngestBatch(IngestBatch(s, f, a), g, b), p), SourceOf(IngestBatch(IngestBatch(s, g, b), f, a), p))
  {
    SourceAfterBatch(s, f, a, p);
    SourceAfterBatch(IngestBatch(s, f, a), g, b, p);
    SourceAfterBatch(s, g, b, p);
    SourceAfterBatch(IngestBatch(s, g, b), f, a, p);
    if p.feed == f && p.obs in a && p.feed == g && p.obs in b {
      SourceSightingsCommute(SourceOf(s, p), a[p.obs], b[p.obs]);
    }
  }

  /** The row is up to date, has an input, and keeps the analyst columns it had. */
  ghost predicate Settled(s: Store, t: Store, k: Key) {
    && k in t.rows && t.rows[k].score == RecomputedScore(t, k) && Inputs(t, k) != {}
    && t.rows[k].manual == (if k in s.rows then s.rows[k].manual else None)
    && t.rows[k].override_ == (if k in s.rows then s.rows[k].override_ else None)
  }

  function LastOf(s: Store, k: Key): Option<int> {
    if k in s.rows then s.rows[k].lastSeen else None
  }

  function SeenIn(batch: Batch, k: Key): Option<int> {
    if k in batch then Some(batch[k].last) else None
  }

  lemma RowAfterBatch(s: Store, feed: nat, batch: Batch, k: Key)
    requires feed in s.feeds && k in batch
    ensures Settled(s, IngestBatch(s, feed, batch), k)
  {
    AbsorbsAfter(s, feed, batch);
    var t := IngestBatch(s, feed, batch);
    assert AbsorbsKey(t, feed, k, batch[k]);
    assert t.sources[SourceKey(k, feed)].confidence in FeedScores(t, k);
  }

  lemma LastAfterBatch(s: Store, feed: nat, batch: Batch, k: Key)
    requires feed in s.feeds
    ensures LastOf(IngestBatch(s, feed, batch), k) == Greatest(LastOf(s, k), SeenIn(batch, k))
  {
  }

  /** After two batches a row that either touched is settled. */
  lemma RowAfterTwo(s: Store, f: nat, a: Batch, g: nat, b: Batch, k: Key)
    requires f in s.feeds && g in s.feeds && (k in a || k in b)
    ensures Settled(s, IngestBatch(IngestBatch(s, f, a), g, b), k)
  {
    FrameAfterBatch(s, f, a);
    var t1 := IngestBatch(s, f, a);
    if k !in b {
      RowAfterBatch(s, f, a, k);
      AbsorbsAfter(s, f, a);
      RowKept(t1, f, a, g, b, k);
    } else {
      RowAfterBatch(t1, g, b, k);
      AnalystColumnsKept(s, f, a, k);
    }
  }

  lemma AnalystColumnsKept(s: Store, feed: nat, batch: Batch, k: Key)
    requires feed in s.feeds
    ensures var t := IngestBatch(s, feed, batch);
      && (k in t.rows ==> t.rows[k].manual == (if k in s.rows then s.rows[k].manual else None))
      && (k in t.rows ==> t.rows[k].override_ == (if k in s.rows then s.rows[k].override_ else None))
      && (k in s.rows ==> k in t.rows)
  {
  }

  lemma KeysAfterBatch(s: Store, feed: nat, batch: Batch)
    requires feed in s.feeds
    ensures IngestBatch(s, feed, batch).rows.Keys == s.rows.Keys + batch.Keys
  {
  }

  /** A batch that does not mention k leaves its row as an earlier batch made it. */
  lemma RowKept(s: Store, f: nat, a: Batch, g: nat, b: Batch, k: Key)
    requires Absorbs(s, f, a) && k in a && k !in b && g in s.feeds
    ensures var t := IngestBatch(s, g, b);
      k in s.rows && k in t.rows && t.rows[k] == s.rows[k] && t.rows[k].score == RecomputedScore(t, k) && Inputs(t, k) != {}
  {
    assert AbsorbsKey(s, f, k, a[k]);
    ElsewhereUntouched(s, g, b, k);
    AbsorbsStays(s, f, a, g, b);
    var t := IngestBatch(s, g, b);
    assert AbsorbsKey(t, f, k, a[k]);
    assert t.sources[SourceKey(k, f)].confidence in FeedScores(t, k);
  }

  lemma SettledAlike(s: Store, t: Store, u: Store, k: Key)
    requires Settled(s, t, k) && Settled(s, u, k) && SourcesAlike(t, u) && t.links == u.links && LastOf(t, k) == LastOf(u, k)
    ensures RowAlike(t.rows[k], u.rows[k])
  {
    AlikeScores(t, u, k);
  }

  lemma LastAfterTwo(s: Store, f: nat, a: Batch, g: nat, b: Batch, k: Key)
    requires f in s.feeds && g in s.feeds
    ensures LastOf(IngestBatch(IngestBatch(s, f, a), g, b), k) == Greatest(Greatest(LastOf(s, k), SeenIn(a, k)), SeenIn(b, k))
  {
    FrameAfterBatch(s, f, a);
    LastAfterBatch(s, f, a, k);
    LastAfterBatch(IngestBatch(s, f, a), g, b, k);
  }

  lemma FrameAfterBatch(s: Store, feed: nat, batch: Batch)
    ensures var t := IngestBatch(s, feed, batch);
      t.links == s.links && t.feeds == s.feeds && t.reports == s.reports
  {
  }

  /** Two batches, of one feed or two, commute up to first-seen times. */
  lemma BatchesCommute(s: Store, f: nat, a: Batch, g: nat, b: Batch)
    ensures Alike(IngestBatch(IngestBatch(s, f, a), g, b), IngestBatch(IngestBatch(s, g, b), f, a))
  {
    if f in s.feeds && g in s.feeds {
      BothCommute(s, f, a, g, b);
    }
  }

  lemma BothCommute(s: Store, f: nat, a: Batch, g: nat, b: Batch)
    requires f in s.feeds && g in s.feeds
    ensures Alike(IngestBatch(IngestBatch(s, f, a), g, b), IngestBatch(IngestBatch(s, g, b), f, a))
  {
    SourcesCommute(s, f, a, g, b);
    TwoBatches(s, f, a, g, b);
    TwoBatchesSwapped(s, g, b, f, a);
    TouchedAlike(s, IngestBatch(IngestBatch(s, f, a), g, b), IngestBatch(IngestBatch(s, g, b), f, a), a, b);
  }

  /** What is known of a state after two batches, from either side. */
  ghost predicate AfterBoth(s: Store, t: Store, a: Batch, b: Batch) {
    && t.links == s.links && t.feeds == s.feeds && t.reports == s.reports && t.rows.Keys == s.rows.Keys + a.Keys + b.Keys
    && forall k :: k in t.rows ==> RowAfterBoth(s, t, a, b, k)
  }

  ghost predicate RowAfterBoth(s: Store, t: Store, a: Batch, b: Batch, k: Key)
    requires k in t.rows
  {
    if k in a || k in b
    then Settled(s, t, k) && LastOf(t, k) == Greatest(LastOf(s, k), Greatest(SeenIn(a, k), SeenIn(b, k)))
    else k in s.rows && t.rows[k] == s.rows[k]
  }

  lemma TwoBatches(s: Store, f: nat, a: Batch, g: nat, b: Batch)
    requires f in s.feeds && g in s.feeds
    ensures AfterBoth(s, IngestBatch(IngestBatch(s, f, a), g, b), a, b)
  {
    FrameAfterBatch(s, f, a);
    KeysAfterBatch(s, f, a);
    FrameAfterBatch(IngestBatch(s, f, a), g, b);
    KeysAfterBatch(IngestBatch(s, f, a), g, b);
    var t := IngestBatch(IngestBatch(s, f, a), g, b);
    forall k | k in t.rows
      ensures RowAfterBoth(s, t, a, b, k)
    {
      RowOfTwoBatches(s, f, a, g, b, k);
    }
  }

  lemma TwoBatchesSwapped(s: Store, f: nat, a: Batch, g: nat, b: Batch)
    requires f in s.feeds && g in s.feeds
    ensures AfterBoth(s, IngestBatch(IngestBatch(s, f, a), g, b), b, a)
  {
    FrameAfterBatch(s, f, a);
    KeysAfterBatch(s, f, a);
    FrameAfterBatch(IngestBatch(s, f, a), g, b);
    KeysAfterBatch(IngestBatch(s, f, a), g, b);
    var t := IngestBatch(IngestBatch(s, f, a), g, b);
    forall k | k in t.rows
      ensures RowAfterBoth(s, t, b, a, k)
    {
      RowOfTwoBatches(s, f, a, g, b, k);
    }
  }

  lemma RowOfTwoBatches(s: Store, f: nat, a: Batch, g: nat, b: Batch, k: Key)
    requires f in s.feeds && g in s.feeds && k in IngestBatch(IngestBatch(s, f, a), g, b).rows
    requires k in s.rows.Keys + a.Keys + b.Keys
    ensures RowAfterBoth(s, IngestBatch(IngestBatch(s, f, a), g, b), a, b, k)
    ensures RowAfterBoth(s, IngestBatch(IngestBatch(s, f, a), g, b), b, a, k)
  {
    FrameAfterBatch(s, f, a);
    var t := IngestBatch(IngestBatch(s, f, a), g, b);
    if k in a || k in b {
      RowAfterTwo(s, f, a, g, b, k);
      LastAfterTwo(s, f, a, g, b, k);
      TouchedRow(s, t, a, b, k);
    } else {
      ElsewhereUntouched(s, f, a, k);
      ElsewhereUntouched(IngestBatch(s, f, a), g, b, k);
    }
  }

  lemma TouchedRow(s: Store, t: Store, a: Batch, b: Batch, k: Key)
    requires k in t.rows && (k in a || k in b) && Settled(s, t, k)
    requires LastOf(t, k) == Greatest(Greatest(LastOf(s, k), SeenIn(a, k)), SeenIn(b, k))
    ensures RowAfterBoth(s, t, a, b, k) && RowAfterBoth(s, t, b, a, k)
  {
  }

  lemma TouchedAlike(s: Store, t: Store, u: Store, a: Batch, b: Batch)
    requires AfterBoth(s, t, a, b) && AfterBoth(s, u, a, b) && SourcesAlike(t, u)
    ensures Alike(t, u)
  {
    forall k | k in t.rows
      ensures k in u.rows && RowAlike(t.rows[k], u.rows[k])
    {
      assert RowAfterBoth(s, t, a, b, k) && RowAfterBoth(s, u, a, b, k);
      if k in a || k in b {
        SettledAlike(s, t, u, k);
      }
    }
  }

  /** One committed batch of some feed's run. */
  datatype Job = Job(feed: nat, batch: Batch)

  function RunJobs(s: Store, jobs: seq<Job>): Store {
    if jobs == [] then s
    else IngestBatch(RunJobs(s, jobs[..|jobs| - 1]), jobs[|jobs| - 1].feed, jobs[|jobs| - 1].batch)
  }

  lemma RunAppend(s: Store, jobs: seq<Job>, j: Job)
    ensures RunJobs(s, jobs + [j]) == IngestBatch(RunJobs(s, jobs), j.feed, j.batch)
  {
    assert (jobs + [j])[..|jobs|] == jobs;
  }

  /** A job can be moved to the end. */
  lemma {:induction false} MoveToEnd(s: Store, head: seq<Job>, j: Job, tail: seq<Job>)
    ensures Alike(RunJobs(s, head + [j] + tail), RunJobs(s, head + tail + [j]))
    decreases |tail|
  {
    if tail == [] {
      assert head + [j] + tail == head + tail + [j];
    } else {
      var front, last := tail[..|tail| - 1], tail[|tail| - 1];
      MoveToEnd(s, head, j, front);
      assert head + [j] + tail == (head + [j] + front) + [last];
      assert head + tail + [j] == ((head + front) + [last]) + [j];
      RunAppend(s, head + [j] + front, last);
      RunAppend(s, head + front, last);
      RunAppend(s, head + front, j);
      RunAppend(s, (head + front) + [last], j);
      IngestAlike(RunJobs(s, head + [j] + front), RunJobs(s, (head + front) + [j]), last.feed, last.batch);
      BatchesCommute(RunJobs(s, head + front), j.feed, j.batch, last.feed, last.batch);
    }
  }

  lemma TakeOut(jobs: seq<Job>, i: nat)
    requires i < |jobs|
    ensures jobs == jobs[..i] + [jobs[i]] + jobs[i + 1..]
    ensures multiset(jobs[..i] + jobs[i + 1..]) == multiset(jobs) - multiset{jobs[i]}
  {
    assert jobs == jobs[..i] + [jobs[i]] + jobs[i + 1..];
  }

  /** Every interleaving of the same batches, whatever their feeds, ends in the same sources, last-seen times and scores. */
  lemma {:induction false} Confluent(s: Store, a: seq<Job>, b: seq<Job>)
    requires multiset(a) == multiset(b)
    ensures Alike(RunJobs(s, a), RunJobs(s, b))
    decreases |a|
  {
    assert |a| == |multiset(a)| == |multiset(b)| == |b|;
    if a != [] {
      var front, last := a[..|a| - 1], a[|a| - 1];
      assert a == front + [last];
      assert last in multiset(b);
      var i :| 0 <= i < |b| && b[i] == last;
      var rest := b[..i] + b[i + 1..];
      TakeOut(b, i);
      Confluent(s, front, rest);
      RunAppend(s, front, last);
      RunAppend(s, rest, last);
      IngestAlike(RunJobs(s, front), RunJobs(s, rest), last.feed, last.batch);
      MoveToEnd(s, b[..i], last, b[i + 1..]);
    }
  }

  /** The batch size is not neutral: of two rows for one key the last wins within a batch, the higher across batches. */
  lemma BatchSizeMatters(k: Key)
    ensures var high, low := Raw(k, Some(90), None, None), Raw(k, Some(10), None, None);
      var s, p := EMPTY.(feeds := map[0 := 50]), SourceKey(k, 0);
      var together := RunBatches(s, 0, [Resolve(LastWins([high, low]), 50, 0)]);
      var apart := RunBatches(s, 0, [Resolve(LastWins([high]), 50, 0), Resolve(LastWins([low]), 50, 0)]);
      ConfidenceOf(together, p) == Some(10) && ConfidenceOf(apart, p) == Some(90)
  {
    var high, low := Raw(k, Some(90), None, None), Raw(k, Some(10), None, None);
    var s, p := EMPTY.(feeds := map[0 := 50]), SourceKey(k, 0);
    assert [high, low][..1] == [high] && [high][..0] == [];
    assert LastWins([high]) == map[k := high] && LastWins([low]) == map[k := low];
    assert LastWins([high, low]) == map[k := low];
    var x, y := Resolve(LastWins([high]), 50, 0), Resolve(LastWins([low]), 50, 0);
    assert [x, y][..1] == [x] && [x][..0] == [];
    SourceAfterBatch(s, 0, x, p);
    SourceAfterBatch(s, 0, y, p);
    SourceAfterBatch(IngestBatch(s, 0, x), 0, y, p);
  }

  // ── Which splits are harmless ─────────────────────────────────────────

  /** The highest confidence and the latest time that some batches report of a key. */
  datatype Peak = Peak(confidence: int, last: int)

  function Higher(old_: Option<Peak>, x: Sighting): Peak {
    if old_.Some? then Peak(Max(old_.value.confidence, x.confidence), Max(old_.value.last, x.last)) else Peak(x.confidence, x.last)
  }

  function PeakOf(batches: seq<Batch>, k: Key): Option<Peak> {
    if batches == [] then None
    else
      var front, last := PeakOf(batches[..|batches| - 1], k), batches[|batches| - 1];
      if k in last then Some(Higher(front, last[k])) else front
  }

  predicate Mentions(batches: seq<Batch>, k: Key) {
    exists i :: 0 <= i < |batches| && k in batches[i]
  }

  lemma MentionsStep(batches: seq<Batch>, k: Key)
    requires batches != []
    ensures Mentions(batches, k) <==> Mentions(batches[..|batches| - 1], k) || k in batches[|batches| - 1]
  {
    var front := batches[..|batches| - 1];
    if i :| 0 <= i < |front| && k in front[i] {
      assert k in batches[i];
    }
  }

  /** The peak bounds every sighting, and both its parts are reached. */
  lemma {:induction false} PeakSpec(batches: seq<Batch>, k: Key)
    ensures PeakOf(batches, k).Some? <==> Mentions(batches, k)
    ensures forall i :: 0 <= i < |batches| && k in batches[i] ==>
      batches[i][k].confidence <= PeakOf(batches, k).value.confidence && batches[i][k].last <= PeakOf(batches, k).value.last
    ensures PeakOf(batches, k).Some? ==>
      && (exists i :: 0 <= i < |batches| && k in batches[i] && batches[i][k].confidence == PeakOf(batches, k).value.confidence)
      && (exists i :: 0 <= i < |batches| && k in batches[i] && batches[i][k].last == PeakOf(batches, k).value.last)
  {
    if batches != [] {
      var front, n := batches[..|batches| - 1], |batches| - 1;
      PeakSpec(front, k);
      MentionsStep(batches, k);
      forall i | 0 <= i < n
        ensures front[i] == batches[i]
      {
      }
      if PeakOf(front, k).Some? {
        var i :| 0 <= i < |front| && k in front[i] && front[i][k].confidence == PeakOf(front, k).value.confidence;
        var j :| 0 <= j < |front| && k in front[j] && front[j][k].last == PeakOf(front, k).value.last;
        assert k in batches[i] && k in batches[j];
      }
    }
  }

  /** A number that is only ever raised. */
  function Raised(old_: Option<int>, x: int): int {
    if old_.Some? then Max(old_.value, x) else x
  }

  function StoredConfidence(s: Store, p: SourceKey): Option<int> {
    if p in s.sources then Some(s.sources[p].confidence) else None
  }

  function StoredNative(s: Store, p: SourceKey): Option<int> {
    if p in s.sources then Some(s.sources[p].native) else None
  }

  function StoredLast(s: Store, p: SourceKey): Option<int> {
    if p in s.sources then Some(s.sources[p].lastSeen) else None
  }

  /** The source at p is what it was, raised to the peak. */
  ghost predicate RaisedTo(s: Store, t: Store, p: SourceKey, peak: Option<Peak>) {
    if peak.None? then SourceOf(t, p) == SourceOf(s, p)
    else
      && p in t.sources
      && t.sources[p].confidence == Raised(StoredConfidence(s, p), peak.value.confidence)
      && t.sources[p].native == Raised(StoredNative(s, p), peak.value.confidence)
      && t.sources[p].lastSeen == Raised(StoredLast(s, p), peak.value.last)
  }

  lemma RaisedStep(s: Store, t: Store, u: Store, p: SourceKey, peak: Option<Peak>, x: Sighting)
    requires RaisedTo(s, t, p, peak) && SourceOf(u, p) == Some(SourceAfter(SourceOf(t, p), x))
    ensures RaisedTo(s, u, p, Some(Higher(peak, x)))
  {
  }

  lemma {:induction false} SourceAfterRun(s: Store, feed: nat, batches: seq<Batch>, p: SourceKey)
    requires feed in s.feeds
    ensures RaisedTo(s, RunBatches(s, feed, batches), p, if p.feed == feed then PeakOf(batches, p.obs) else None)
  {
    if batches != [] {
      var front, last := batches[..|batches| - 1], batches[|batches| - 1];
      var t := RunBatches(s, feed, front);
      SourceAfterRun(s, feed, front, p);
      FeedsStay(s, feed, front);
      SourceAfterBatch(t, feed, last, p);
      if p.feed == feed && p.obs in last {
        RaisedStep(s, t, IngestBatch(t, feed, last), p, PeakOf(front, p.obs), last[p.obs]);
      }
    }
  }

  /** What a run leaves of a row: settled and seen up to the peak when mentioned, untouched otherwise. */
  ghost predicate RowAfterRun(s: Store, t: Store, batches: seq<Batch>, k: Key) {
    match PeakOf(batches, k)
    case None => (k in t.rows <==> k in s.rows) && (k in s.rows ==> t.rows[k] == s.rows[k])
    case Some(peak) => Settled(s, t, k) && LastOf(t, k) == Some(Raised(LastOf(s, k), peak.last))
  }

  lemma {:induction false} LastAfterRun(s: Store, feed: nat, batches: seq<Batch>, k: Key)
    requires feed in s.feeds
    ensures LastOf(RunBatches(s, feed, batches), k) ==
      if PeakOf(batches, k).Some? then Some(Raised(LastOf(s, k), PeakOf(batches, k).value.last)) else LastOf(s, k)
  {
    if batches != [] {
      LastAfterRun(s, feed, batches[..|batches| - 1], k);
      FeedsStay(s, feed, batches[..|batches| - 1]);
      LastAfterBatch(RunBatches(s, feed, batches[..|batches| - 1]), feed, batches[|batches| - 1], k);
    }
  }

  /** The analyst columns of a row that some state before had or had not. */
  ghost predicate ColumnsKept(s: Store, t: Store, k: Key) {
    && (k in s.rows ==> k in t.rows)
    && (k in t.rows ==> t.rows[k].manual == (if k in s.rows then s.rows[k].manual else None))
    && (k in t.rows ==> t.rows[k].override_ == (if k in s.rows then s.rows[k].override_ else None))
  }

  lemma {:induction false} ColumnsAfterRun(s: Store, feed: nat, batches: seq<Batch>, k: Key)
    requires feed in s.feeds
    ensures ColumnsKept(s, RunBatches(s, feed, batches), k)
  {
    if batches != [] {
      ColumnsAfterRun(s, feed, batches[..|batches| - 1], k);
      FeedsStay(s, feed, batches[..|batches| - 1]);
      AnalystColumnsKept(RunBatches(s, feed, batches[..|batches| - 1]), feed, batches[|batches| - 1], k);
    }
  }

  lemma {:induction false} UnmentionedRow(s: Store, feed: nat, batches: seq<Batch>, k: Key)
    requires feed in s.feeds && PeakOf(batches, k).None?
    ensures var t := RunBatches(s, feed, batches);
      (k in t.rows <==> k in s.rows) && (k in s.rows ==> t.rows[k] == s.rows[k])
  {
    if batches != [] {
      var front, last := batches[..|batches| - 1], batches[|batches| - 1];
      UnmentionedRow(s, feed, front, k);
      FeedsStay(s, feed, front);
      KeysAfterBatch(RunBatches(s, feed, front), feed, last);
      if k in s.rows {
        ElsewhereUntouched(RunBatches(s, feed, front), feed, last, k);
      }
    }
  }

  lemma MentionedRow(s: Store, feed: nat, batches: seq<Batch>, k: Key)
    requires feed in s.feeds && PeakOf(batches, k).Some?
    ensures Settled(s, RunBatches(s, feed, batches), k)
  {
    PeakSpec(batches, k);
    var i :| 0 <= i < |batches| && k in batches[i];
    var t := RunBatches(s, feed, batches);
    RunAbsorbs(s, feed, batches, i);
    assert AbsorbsKey(t, feed, k, batches[i][k]);
    assert t.sources[SourceKey(k, feed)].confidence in FeedScores(t, k);
    ColumnsAfterRun(s, feed, batches, k);
  }

  lemma RowsAfterRun(s: Store, feed: nat, batches: seq<Batch>, k: Key)
    requires feed in s.feeds
    ensures RowAfterRun(s, RunBatches(s, feed, batches), batches, k)
  {
    LastAfterRun(s, feed, batches, k);
    if PeakOf(batches, k).Some? {
      MentionedRow(s, feed, batches, k);
    } else {
      UnmentionedRow(s, feed, batches, k);
    }
  }

  lemma {:induction false} FrameAfterRun(s: Store, feed: nat, batches: seq<Batch>)
    ensures var t := RunBatches(s, feed, batches);
      t.links == s.links && t.feeds == s.feeds && t.reports == s.reports
  {
    if batches != [] {
      FrameAfterRun(s, feed, batches[..|batches| - 1]);
      FrameAfterBatch(RunBatches(s, feed, batches[..|batches| - 1]), feed, batches[|batches| - 1]);
    }
  }

  /** Two peaks that come to the same above what is stored. */
  predicate SamePeak(s: Store, feed: nat, k: Key, a: Peak, b: Peak) {
    var p := SourceKey(k, feed);
    && Raised(StoredConfidence(s, p), a.confidence) == Raised(StoredConfidence(s, p), b.confidence)
    && Raised(StoredNative(s, p), a.confidence) == Raised(StoredNative(s, p), b.confidence)
    && Raised(StoredLast(s, p), a.last) == Raised(StoredLast(s, p), b.last)
    && Raised(LastOf(s, k), a.last) == Raised(LastOf(s, k), b.last)
  }

  /** The same keys, each with peaks that come to the same. */
  ghost predicate SamePeaks(s: Store, feed: nat, a: seq<Batch>, b: seq<Batch>) {
    forall k :: SamePeakAt(s, feed, a, b, k)
  }

  ghost predicate SamePeakAt(s: Store, feed: nat, a: seq<Batch>, b: seq<Batch>, k: Key) {
    var x, y := PeakOf(a, k), PeakOf(b, k);
    (x.Some? <==> y.Some?) && (x.Some? && y.Some? ==> SamePeak(s, feed, k, x.value, y.value))
  }

  ghost predicate SameKeys(a: seq<Batch>, b: seq<Batch>) {
    forall k :: Mentions(a, k) <==> Mentions(b, k)
  }

  lemma SameSource(s: Store, t: Store, u: Store, feed: nat, a: seq<Batch>, b: seq<Batch>, p: SourceKey)
    requires RaisedTo(s, t, p, if p.feed == feed then PeakOf(a, p.obs) else None)
    requires RaisedTo(s, u, p, if p.feed == feed then PeakOf(b, p.obs) else None)
    requires SamePeakAt(s, feed, a, b, p.obs)
    ensures MaybeAlike(SourceOf(t, p), SourceOf(u, p))
  {
  }

  lemma AlikeFromPeaks(s: Store, feed: nat, a: seq<Batch>, b: seq<Batch>)
    requires feed in s.feeds && SamePeaks(s, feed, a, b)
    ensures Alike(RunBatches(s, feed, a), RunBatches(s, feed, b))
  {
    var t, u := RunBatches(s, feed, a), RunBatches(s, feed, b);
    FrameAfterRun(s, feed, a);
    FrameAfterRun(s, feed, b);
    forall p
      ensures MaybeAlike(SourceOf(t, p), SourceOf(u, p))
    {
      SourceAfterRun(s, feed, a, p);
      SourceAfterRun(s, feed, b, p);
      assert SamePeakAt(s, feed, a, b, p.obs);
      SameSource(s, t, u, feed, a, b, p);
    }
    SourcesFrom(t, u);
    forall k
      ensures k in t.rows <==> k in u.rows
      ensures k in t.rows ==> RowAlike(t.rows[k], u.rows[k])
    {
      RowsAfterRun(s, feed, a, k);
      RowsAfterRun(s, feed, b, k);
      assert SamePeakAt(s, feed, a, b, k);
      SameRow(s, t, u, feed, a, b, k);
    }
    assert t.rows.Keys == u.rows.Keys;
  }

  lemma SourcesFrom(t: Store, u: Store)
    requires forall p :: MaybeAlike(SourceOf(t, p), SourceOf(u, p))
    ensures SourcesAlike(t, u)
  {
    forall p
      ensures p in t.sources <==> p in u.sources
      ensures p in t.sources ==> SourceAlike(t.sources[p], u.sources[p])
    {
      assert MaybeAlike(SourceOf(t, p), SourceOf(u, p));
    }
    assert t.sources.Keys == u.sources.Keys;
  }

  lemma SameRow(s: Store, t: Store, u: Store, feed: nat, a: seq<Batch>, b: seq<Batch>, k: Key)
    requires RowAfterRun(s, t, a, k) && RowAfterRun(s, u, b, k) && SamePeakAt(s, feed, a, b, k)
    requires SourcesAlike(t, u) && t.links == u.links
    ensures k in t.rows <==> k in u.rows
    ensures k in t.rows ==> RowAlike(t.rows[k], u.rows[k])
  {
    if PeakOf(a, k).Some? {
      SettledAlike(s, t, u, k);
    }
  }

  lemma PeaksFromAlike(s: Store, feed: nat, a: seq<Batch>, b: seq<Batch>, k: Key)
    requires feed in s.feeds && SameKeys(a, b) && Alike(RunBatches(s, feed, a), RunBatches(s, feed, b))
    ensures SamePeakAt(s, feed, a, b, k)
  {
    var t, u, p := RunBatches(s, feed, a), RunBatches(s, feed, b), SourceKey(k, feed);
    PeakSpec(a, k);
    PeakSpec(b, k);
    assert Mentions(a, k) <==> Mentions(b, k);
    if PeakOf(a, k).Some? {
      SourceAfterRun(s, feed, a, p);
      SourceAfterRun(s, feed, b, p);
      RowsAfterRun(s, feed, a, k);
      RowsAfterRun(s, feed, b, k);
      assert SourceAlike(t.sources[p], u.sources[p]) && RowAlike(t.rows[k], u.rows[k]);
    }
  }

  /** Two ways to cut the same rows into batches end alike exactly when, for every key, the highest confidence and the latest time
      they report come to the same above what is stored. */
  lemma SplitsAgreeIff(s: Store, feed: nat, a: seq<Batch>, b: seq<Batch>)
    requires feed in s.feeds && SameKeys(a, b)
    ensures Alike(RunBatches(s, feed, a), RunBatches(s, feed, b)) <==> SamePeaks(s, feed, a, b)
  {
    if SamePeaks(s, feed, a, b) {
      AlikeFromPeaks(s, feed, a, b);
    }
    if Alike(RunBatches(s, feed, a), RunBatches(s, feed, b)) {
      forall k
        ensures SamePeakAt(s, feed, a, b, k)
      {
        PeaksFromAlike(s, feed, a, b, k);
      }
    }
  }

  /** x lies within what the database holds of the key, or within the sighting y that comes last. */
  predicate NeutralKey(s: Store, feed: nat, k: Key, x: Sighting, y: Sighting) {
    var p := SourceKey(k, feed);
    && x.confidence <= Raised(StoredConfidence(s, p), y.confidence) && x.confidence <= Raised(StoredNative(s, p), y.confidence)
    && x.last <= Raised(StoredLast(s, p), y.last) && x.last <= Raised(LastOf(s, k), y.last)
  }

  /** All batches in one: the last sighting of a key wins. */
  function Merge(batches: seq<Batch>): Batch {
    if batches == [] then map[] else Merge(batches[..|batches| - 1]) + batches[|batches| - 1]
  }

  /** Every sighting of a key lies within what is stored or within the key's last sighting. */
  ghost predicate AllNeutral(s: Store, feed: nat, batches: seq<Batch>) {
    forall i, k :: 0 <= i < |batches| && k in batches[i] && k in Merge(batches) ==>
      NeutralKey(s, feed, k, batches[i][k], Merge(batches)[k])
  }

  /** The merged batch holds, for exactly the mentioned keys, one of the sightings. */
  lemma {:induction false} MergeSpec(batches: seq<Batch>, k: Key)
    ensures k in Merge(batches) <==> Mentions(batches, k)
    ensures k in Merge(batches) ==> exists i :: 0 <= i < |batches| && k in batches[i] && batches[i][k] == Merge(batches)[k]
  {
    if batches != [] {
      var front := batches[..|batches| - 1];
      MergeSpec(front, k);
      MentionsStep(batches, k);
      if k in batches[|batches| - 1] {
        assert batches[|batches| - 1][k] == Merge(batches)[k];
      } else if k in Merge(front) {
        var i :| 0 <= i < |front| && k in front[i] && front[i][k] == Merge(front)[k];
        assert batches[i][k] == Merge(batches)[k];
      }
    }
  }

  lemma OneBatch(s: Store, feed: nat, batch: Batch, k: Key)
    ensures RunBatches(s, feed, [batch]) == IngestBatch(s, feed, batch)
    ensures PeakOf([batch], k) == if k in batch then Some(Peak(batch[k].confidence, batch[k].last)) else None
    ensures Mentions([batch], k) <==> k in batch
  {
    assert [batch][..0] == [];
    assert k in batch ==> k in [batch][0];
  }

  /** One key: its peak comes to its last sighting exactly when every sighting lies within. */
  lemma NeutralIffSamePeak(s: Store, feed: nat, batches: seq<Batch>, k: Key)
    requires k in Merge(batches)
    ensures PeakOf(batches, k).Some?
    ensures SamePeak(s, feed, k, PeakOf(batches, k).value, Peak(Merge(batches)[k].confidence, Merge(batches)[k].last))
      <==> forall i :: 0 <= i < |batches| && k in batches[i] ==> NeutralKey(s, feed, k, batches[i][k], Merge(batches)[k])
  {
    PeakSpec(batches, k);
    MergeSpec(batches, k);
    var peak, y := PeakOf(batches, k).value, Merge(batches)[k];
    var c :| 0 <= c < |batches| && k in batches[c] && batches[c][k].confidence == peak.confidence;
    var l :| 0 <= l < |batches| && k in batches[l] && batches[l][k].last == peak.last;
    assert y.confidence <= peak.confidence && y.last <= peak.last;
    SamePeakBounds(s, feed, k, peak, y);
    if forall i :: 0 <= i < |batches| && k in batches[i] ==> NeutralKey(s, feed, k, batches[i][k], y) {
      assert NeutralKey(s, feed, k, batches[c][k], y) && NeutralKey(s, feed, k, batches[l][k], y);
    }
  }

  lemma SamePeakBounds(s: Store, feed: nat, k: Key, peak: Peak, y: Sighting)
    requires y.confidence <= peak.confidence && y.last <= peak.last
    ensures SamePeak(s, feed, k, peak, Peak(y.confidence, y.last)) <==>
      NeutralKey(s, feed, k, Sighting(peak.confidence, 0, peak.last), y)
  {
  }

  lemma MergedKeys(s: Store, feed: nat, batches: seq<Batch>)
    ensures SameKeys(batches, [Merge(batches)])
  {
    forall k
      ensures Mentions(batches, k) <==> Mentions([Merge(batches)], k)
    {
      MergeSpec(batches, k);
      OneBatch(s, feed, Merge(batches), k);
    }
  }

  lemma NeutralIffSamePeaks(s: Store, feed: nat, batches: seq<Batch>)
    ensures AllNeutral(s, feed, batches) <==> SamePeaks(s, feed, batches, [Merge(batches)])
  {
    var all := Merge(batches);
    forall k
      ensures SamePeakAt(s, feed, batches, [all], k) <==>
        (k in all ==> forall i :: 0 <= i < |batches| && k in batches[i] ==> NeutralKey(s, feed, k, batches[i][k], all[k]))
    {
      OneBatch(s, feed, all, k);
      PeakSpec(batches, k);
      MergeSpec(batches, k);
      if k in all {
        NeutralIffSamePeak(s, feed, batches, k);
      }
    }
  }

  /** Batch after batch ends like one batch of everything exactly when no sighting rises above what is stored and the key's last one. */
  lemma SplitHarmlessIff(s: Store, feed: nat, batches: seq<Batch>)
    requires feed in s.feeds
    ensures Alike(RunBatches(s, feed, batches), IngestBatch(s, feed, Merge(batches))) <==> AllNeutral(s, feed, batches)
  {
    MergedKeys(s, feed, batches);
    SplitsAgreeIff(s, feed, batches, [Merge(batches)]);
    NeutralIffSamePeaks(s, feed, batches);
    assert [Merge(batches)][..0] == [];
  }

  lemma MergeTwo(s: Store, feed: nat, a: Batch, b: Batch)
    ensures Merge([a, b]) == a + b && RunBatches(s, feed, [a, b]) == IngestBatch(IngestBatch(s, feed, a), feed, b)
  {
    assert [a, b][..1] == [a] && [a][..0] == [];
    assert Merge([a]) == a && RunBatches(s, feed, [a]) == IngestBatch(s, feed, a);
  }

  /** Splitting one batch in two is harmless exactly when, for the keys in both parts, the earlier sighting does not rise above what
      is stored and the later one. */
  lemma TwoPartsHarmlessIff(s: Store, feed: nat, a: Batch, b: Batch)
    requires feed in s.feeds
    ensures Alike(IngestBatch(IngestBatch(s, feed, a), feed, b), IngestBatch(s, feed, a + b)) <==>
      forall k :: k in a && k in b ==> NeutralKey(s, feed, k, a[k], b[k])
  {
    MergeTwo(s, feed, a, b);
    SplitHarmlessIff(s, feed, [a, b]);
    TwoPartsNeutral(s, feed, a, b);
  }

  lemma TwoPartsNeutral(s: Store, feed: nat, a: Batch, b: Batch)
    requires Merge([a, b]) == a + b
    ensures AllNeutral(s, feed, [a, b]) <==> forall k :: k in a && k in b ==> NeutralKey(s, feed, k, a[k], b[k])
  {
    var parts := [a, b];
    if AllNeutral(s, feed, parts) {
      forall k | k in a && k in b
        ensures NeutralKey(s, feed, k, a[k], b[k])
      {
        assert k in parts[0] && k in Merge(parts);
      }
    }
    assert parts[0] == a && parts[1] == b;
  }

  // ── The batch size as the parameter ───────────────────────────────────

  lemma {:induction false} LastWinsJoin(a: seq<Raw>, b: seq<Raw>)
    ensures LastWins(a + b) == LastWins(a) + LastWins(b)
  {
    if b == [] {
      assert a + b == a;
    } else {
      LastWinsJoin(a, b[..|b| - 1]);
      assert (a + b)[..|a + b| - 1] == a + b[..|b| - 1];
    }
  }

  lemma ResolveJoin(a: map<Key, Raw>, b: map<Key, Raw>, feedDefault: int, now: int)
    ensures Resolve(a + b, feedDefault, now) == Resolve(a, feedDefault, now) + Resolve(b, feedDefault, now)
  {
  }

  lemma MergeLast(front: seq<Batch>, last: Batch)
    ensures Merge(front + [last]) == Merge(front) + last
  {
    assert (front + [last])[..|front|] == front;
  }

  lemma {:induction false} MergeFirst(first: Batch, rest: seq<Batch>)
    ensures Merge([first] + rest) == first + Merge(rest)
  {
    if rest == [] {
      assert [first] + rest == [] + [first];
      MergeLast([], first);
    } else {
      var front, last := rest[..|rest| - 1], rest[|rest| - 1];
      MergeFirst(first, front);
      MergeRegroup(first, front, last);
      assert [first] + rest == ([first] + front) + [last] && rest == front + [last];
    }
  }

  lemma MergeRegroup(first: Batch, front: seq<Batch>, last: Batch)
    requires Merge([first] + front) == first + Merge(front)
    ensures Merge(([first] + front) + [last]) == first + Merge(front + [last])
  {
    MergeLast([first] + front, last);
    MergeLast(front, last);
    assert (first + Merge(front)) + last == first + (Merge(front) + last);
  }

  /** Whatever the size, the batches of a run merge to one batch of all its rows. */
  lemma {:induction false} BatchesMerge(raws: seq<Raw>, start: nat, size: nat, feedDefault: int, now: int)
    requires size > 0 && start <= |raws|
    ensures Merge(Batches(raws, start, size, feedDefault, now)) == Resolve(LastWins(raws[start..]), feedDefault, now)
    decreases |raws| - start
  {
    if start < |raws| {
      var stop := BatchEnd(start, |raws|, size);
      BatchesMerge(raws, stop, size, feedDefault, now);
      assert raws[start..] == raws[start..stop] + raws[stop..];
      LastWinsJoin(raws[start..stop], raws[stop..]);
      ResolveJoin(LastWins(raws[start..stop]), LastWins(raws[stop..]), feedDefault, now);
      MergeFirst(Resolve(LastWins(raws[start..stop]), feedDefault, now), Batches(raws, stop, size, feedDefault, now));
    }
  }

  /** A batch size is neutral, that is, ends like one batch of all the rows, exactly when no sighting of its batches rises above what
      is stored and the last sighting of its key. */
  lemma BatchSizeNeutralIff(s: Store, feed: nat, raws: seq<Raw>, size: nat, now: int)
    requires feed in s.feeds && size > 0
    ensures var batches := Batches(raws, 0, size, s.feeds[feed], now);
      AllNeutral(s, feed, batches) <==>
        Alike(RunBatches(s, feed, batches), IngestBatch(s, feed, Resolve(LastWins(raws), s.feeds[feed], now)))
  {
    BatchesMerge(raws, 0, size, s.feeds[feed], now);
    assert raws[0..] == raws;
    SplitHarmlessIff(s, feed, Batches(raws, 0, size, s.feeds[feed], now));
  }

  /** Any two batch sizes end alike exactly when for every key their batches' peaks come to the same above what is stored. */
  lemma BatchSizesAgreeIff(s: Store, feed: nat, raws: seq<Raw>, size: nat, other: nat, now: int)
    requires feed in s.feeds && size > 0 && other > 0
    ensures var (a, b) := (Batches(raws, 0, size, s.feeds[feed], now), Batches(raws, 0, other, s.feeds[feed], now));
      SamePeaks(s, feed, a, b) <==> Alike(RunBatches(s, feed, a), RunBatches(s, feed, b))
  {
    var a, b := Batches(raws, 0, size, s.feeds[feed], now), Batches(raws, 0, other, s.feeds[feed], now);
    BatchesMerge(raws, 0, size, s.feeds[feed], now);
    BatchesMerge(raws, 0, other, s.feeds[feed], now);
    forall k
      ensures Mentions(a, k) <==> Mentions(b, k)
    {
      MergeSpec(a, k);
      MergeSpec(b, k);
    }
    SplitsAgreeIff(s, feed, a, b);
  }

  // ── What a run stores, in terms of its rows ───────────────────────────

  /** The row's feed confidence: the feed's default when it brings none, and otherwise its own, cut off at 0 and 100. */
  predicate Reports(raw: Raw, feedDefault: int, c: int) {
    match raw.native
    case None => c == feedDefault
    case Some(n) => (n < 0 ==> c == 0) && (0 <= n <= 100 ==> c == n) && (n > 100 ==> c == 100)
  }

  /** A time given by the row, or the time of the run. */
  predicate TakenAt(given: Option<int>, now: int, t: int) {
    Some(t) == given || (given == None && t == now)
  }

  /** No later row of the same batch has the row's key. */
  ghost predicate IsLast(raws: seq<Raw>, i: nat)
    requires i < |raws|
  {
    forall j :: i < j < |raws| ==> raws[j].key != raws[i].key
  }

  lemma {:induction false} LastWinsIsLast(raws: seq<Raw>, k: Key)
    ensures (exists i :: 0 <= i < |raws| && raws[i].key == k) <==> k in LastWins(raws)
    ensures forall i :: 0 <= i < |raws| && raws[i].key == k && IsLast(raws, i) ==> k in LastWins(raws) && LastWins(raws)[k] == raws[i]
    ensures k in LastWins(raws) ==> exists i :: 0 <= i < |raws| && raws[i].key == k && IsLast(raws, i)
  {
    if raws != [] {
      var front, n := raws[..|raws| - 1], |raws| - 1;
      LastWinsIsLast(front, k);
      assert forall i :: 0 <= i < n ==> raws[i] == front[i];
      if raws[n].key == k {
        assert IsLast(raws, n);
      } else {
        forall i | 0 <= i < n && raws[i].key == k
          ensures IsLast(raws, i) <==> IsLast(front, i)
        {
          assert forall j :: i < j < n ==> raws[j] == front[j];
        }
      }
    }
  }

  lemma {:induction false} BatchAt(raws: seq<Raw>, start: nat, feedDefault: int, now: int, j: nat)
    requires start <= |raws| && j < |Batches(raws, start, BATCH_SIZE, feedDefault, now)|
    ensures start + j * BATCH_SIZE < |raws|
    ensures Batches(raws, start, BATCH_SIZE, feedDefault, now)[j] ==
      Resolve(LastWins(raws[start + j * BATCH_SIZE..BatchEnd(start + j * BATCH_SIZE, |raws|, BATCH_SIZE)]), feedDefault, now)
    decreases j
  {
    if j > 0 {
      var stop := BatchEnd(start, |raws|, BATCH_SIZE);
      assert stop < |raws|;
      BatchAt(raws, stop, feedDefault, now, j - 1);
      assert stop + (j - 1) * BATCH_SIZE == start + j * BATCH_SIZE;
    }
  }

  /** Row i is the last one of its key in its batch. */
  ghost predicate LastInBatch(raws: seq<Raw>, i: nat)
    requires i < |raws|
  {
    forall j :: i < j < |raws| && j / BATCH_SIZE == i / BATCH_SIZE ==> raws[j].key != raws[i].key
  }

  /** Row i stands for its key in one of the first so many batches. */
  ghost predicate Stands(raws: seq<Raw>, committed: nat, k: Key, i: int)
  {
    0 <= i < |raws| && i / BATCH_SIZE < committed && raws[i].key == k && LastInBatch(raws, i)
  }

  /** The sighting that a batch holds for a key comes from the row that stands for it, and every such row has its sighting. */
  lemma SightingOfBatch(raws: seq<Raw>, feedDefault: int, now: int, j: nat, k: Key)
    requires j < |Batches(raws, 0, BATCH_SIZE, feedDefault, now)|
    ensures var batch := Batches(raws, 0, BATCH_SIZE, feedDefault, now)[j];
      && (k in batch ==> exists i :: Stands(raws, j + 1, k, i) && i / BATCH_SIZE == j)
      && forall i :: Stands(raws, j + 1, k, i) && i / BATCH_SIZE == j ==> k in batch && IsSighting(raws[i], feedDefault, now, batch[k])
  {
    BatchAt(raws, 0, feedDefault, now, j);
    var lo, hi := j * BATCH_SIZE, BatchEnd(j * BATCH_SIZE, |raws|, BATCH_SIZE);
    forall i: nat | i < |raws|
      ensures i / BATCH_SIZE == j <==> lo <= i < hi
    {
      PlaceInBatch(i, j);
    }
    StandsInPart(raws, lo, hi, j, k);
    SightingMeans(raws, feedDefault, now);
  }

  lemma PlaceInBatch(i: nat, j: nat)
    ensures i / BATCH_SIZE == j <==> j * BATCH_SIZE <= i < j * BATCH_SIZE + BATCH_SIZE
  {
  }

  lemma StandsInPart(raws: seq<Raw>, lo: nat, hi: nat, j: nat, k: Key)
    requires lo <= hi <= |raws| && forall i: nat :: i < |raws| ==> (i / BATCH_SIZE == j <==> lo <= i < hi)
    ensures var part := LastWins(raws[lo..hi]);
      && (k in part ==> exists i :: Stands(raws, j + 1, k, i) && i / BATCH_SIZE == j)
      && forall i :: Stands(raws, j + 1, k, i) && i / BATCH_SIZE == j ==> k in part && part[k] == raws[i]
  {
    var part := raws[lo..hi];
    LastWinsIsLast(part, k);
    forall i | Stands(raws, j + 1, k, i) && i / BATCH_SIZE == j
      ensures k in LastWins(part) && LastWins(part)[k] == raws[i]
    {
      LastInPart(raws, lo, hi, j, i);
    }
    if k in LastWins(part) {
      var n :| 0 <= n < |part| && part[n].key == k && IsLast(part, n);
      LastOfPart(raws, lo, hi, j, n);
      assert Stands(raws, j + 1, k, lo + n);
    }
  }

  lemma LastInPart(raws: seq<Raw>, lo: nat, hi: nat, j: nat, i: nat)
    requires lo <= i < hi <= |raws| && LastInBatch(raws, i) && i / BATCH_SIZE == j
    requires forall n: nat :: n < |raws| ==> (n / BATCH_SIZE == j <==> lo <= n < hi)
    ensures raws[lo..hi][i - lo] == raws[i] && IsLast(raws[lo..hi], i - lo)
  {
    var part := raws[lo..hi];
    forall n | i - lo < n < |part|
      ensures part[n].key != part[i - lo].key
    {
      assert part[n] == raws[lo + n] && (lo + n) / BATCH_SIZE == j;
    }
  }

  lemma LastOfPart(raws: seq<Raw>, lo: nat, hi: nat, j: nat, n: nat)
    requires lo <= hi <= |raws| && n < hi - lo && IsLast(raws[lo..hi], n)
    requires forall i: nat :: i < |raws| ==> (i / BATCH_SIZE == j <==> lo <= i < hi)
    ensures LastInBatch(raws, lo + n) && (lo + n) / BATCH_SIZE == j && raws[lo + n] == raws[lo..hi][n]
  {
    forall m | lo + n < m < |raws| && m / BATCH_SIZE == (lo + n) / BATCH_SIZE
      ensures raws[m].key != raws[lo + n].key
    {
      assert raws[lo..hi][m - lo] == raws[m];
    }
  }

  predicate IsSighting(raw: Raw, feedDefault: int, now: int, x: Sighting) {
    Reports(raw, feedDefault, x.confidence) && TakenAt(raw.firstSeen, now, x.first) && TakenAt(raw.lastSeen, now, x.last)
  }

  lemma SightingMeans(raws: seq<Raw>, feedDefault: int, now: int)
    ensures forall i :: 0 <= i < |raws| ==> IsSighting(raws[i], feedDefault, now, SightingOf(raws[i], feedDefault, now))
  {
  }

  /** The greatest confidence that the rows standing for a key report. */
  ghost predicate IsTopConfidence(raws: seq<Raw>, committed: nat, k: Key, feedDefault: int, c: int)
  {
    && (exists i :: Stands(raws, committed, k, i) && Reports(raws[i], feedDefault, c))
    && forall i, x :: Stands(raws, committed, k, i) && Reports(raws[i], feedDefault, x) ==> x <= c
  }

  /** The latest time at which they saw it. */
  ghost predicate IsTopTime(raws: seq<Raw>, committed: nat, k: Key, now: int, t: int)
  {
    && (exists i :: Stands(raws, committed, k, i) && TakenAt(raws[i].lastSeen, now, t))
    && forall i, x :: Stands(raws, committed, k, i) && TakenAt(raws[i].lastSeen, now, x) ==> x <= t
  }

  /** The first-seen time of the row that stands for the key in the first batch with the key. */
  ghost predicate IsFirstTime(raws: seq<Raw>, committed: nat, k: Key, now: int, t: int)
  {
    exists i :: Stands(raws, committed, k, i) && TakenAt(raws[i].firstSeen, now, t) &&
      forall j :: Stands(raws, committed, k, j) ==> i / BATCH_SIZE <= j / BATCH_SIZE
  }

  /** Row i stands for the key in batch j, where it left the sighting x. */
  ghost predicate StandsIn(
      raws: seq<Raw>, committed: nat, k: Key, i: int, j: nat, feedDefault: int, now: int, x: Sighting)
  {
    Stands(raws, committed, k, i) && i / BATCH_SIZE == j && IsSighting(raws[i], feedDefault, now, x)
  }

  lemma InPrefix(raws: seq<Raw>, feedDefault: int, now: int, committed: nat, j: nat, k: Key)
    requires committed <= |Batches(raws, 0, BATCH_SIZE, feedDefault, now)| && j < committed
    requires k in Batches(raws, 0, BATCH_SIZE, feedDefault, now)[j]
    ensures exists i :: StandsIn(raws, committed, k, i, j, feedDefault, now, Batches(raws, 0, BATCH_SIZE, feedDefault, now)[j][k])
  {
    SightingOfBatch(raws, feedDefault, now, j, k);
    var i :| Stands(raws, j + 1, k, i) && i / BATCH_SIZE == j;
    assert StandsIn(raws, committed, k, i, j, feedDefault, now, Batches(raws, 0, BATCH_SIZE, feedDefault, now)[j][k]);
  }

  lemma FromPrefix(raws: seq<Raw>, feedDefault: int, now: int, committed: nat, i: int, k: Key)
    requires committed <= |Batches(raws, 0, BATCH_SIZE, feedDefault, now)| && Stands(raws, committed, k, i)
    ensures k in Batches(raws, 0, BATCH_SIZE, feedDefault, now)[i / BATCH_SIZE]
    ensures IsSighting(raws[i], feedDefault, now, Batches(raws, 0, BATCH_SIZE, feedDefault, now)[i / BATCH_SIZE][k])
  {
    SightingOfBatch(raws, feedDefault, now, i / BATCH_SIZE, k);
    assert Stands(raws, i / BATCH_SIZE + 1, k, i);
  }

  /** The peak of the committed batches, in terms of the rows. */
  lemma PeakOfRows(raws: seq<Raw>, feedDefault: int, now: int, committed: nat, k: Key)
    requires committed <= |Batches(raws, 0, BATCH_SIZE, feedDefault, now)|
    ensures var peak := PeakOf(Batches(raws, 0, BATCH_SIZE, feedDefault, now)[..committed], k);
      && (peak.Some? <==> exists i :: Stands(raws, committed, k, i))
      && (peak.Some? ==> IsTopConfidence(raws, committed, k, feedDefault, peak.value.confidence))
      && (peak.Some? ==> IsTopTime(raws, committed, k, now, peak.value.last))
  {
    var all := Batches(raws, 0, BATCH_SIZE, feedDefault, now);
    var some := all[..committed];
    PeakSpec(some, k);
    forall i | Stands(raws, committed, k, i)
      ensures i / BATCH_SIZE < committed && k in some[i / BATCH_SIZE] && IsSighting(raws[i], feedDefault, now, some[i / BATCH_SIZE][k])
    {
      FromPrefix(raws, feedDefault, now, committed, i, k);
    }
    if i :| Stands(raws, committed, k, i) {
      assert k in some[i / BATCH_SIZE];
    }
    var peak := PeakOf(some, k);
    if peak.Some? {
      var c :| 0 <= c < |some| && k in some[c] && some[c][k].confidence == peak.value.confidence;
      var l :| 0 <= l < |some| && k in some[l] && some[l][k].last == peak.value.last;
      InPrefix(raws, feedDefault, now, committed, c, k);
      InPrefix(raws, feedDefault, now, committed, l, k);
      var i :| StandsIn(raws, committed, k, i, c, feedDefault, now, some[c][k]);
      var j :| StandsIn(raws, committed, k, j, l, feedDefault, now, some[l][k]);
      PeakIsTop(raws, committed, some, k, feedDefault, now, peak.value);
    }
  }

  lemma ReportsOnce(raw: Raw, feedDefault: int, a: int, b: int)
    requires Reports(raw, feedDefault, a) && Reports(raw, feedDefault, b)
    ensures a == b
  {
    if raw.native.Some? {
      var n := raw.native.value;
      assert raw.native == Some(n);
    }
  }

  lemma PeakIsTop(raws: seq<Raw>, committed: nat, some: seq<Batch>, k: Key, feedDefault: int, now: int, peak: Peak)
    requires |some| == committed
    requires forall i :: Stands(raws, committed, k, i) ==>
      i / BATCH_SIZE < committed && k in some[i / BATCH_SIZE] && IsSighting(raws[i], feedDefault, now, some[i / BATCH_SIZE][k])
    requires forall j :: 0 <= j < |some| && k in some[j] ==> some[j][k].confidence <= peak.confidence && some[j][k].last <= peak.last
    requires exists i, x: Sighting :: x.confidence == peak.confidence && Stands(raws, committed, k, i) && IsSighting(raws[i], feedDefault, now, x)
    requires exists i, x: Sighting :: x.last == peak.last && Stands(raws, committed, k, i) && IsSighting(raws[i], feedDefault, now, x)
    ensures IsTopConfidence(raws, committed, k, feedDefault, peak.confidence)
    ensures IsTopTime(raws, committed, k, now, peak.last)
  {
    forall i, x | Stands(raws, committed, k, i) && Reports(raws[i], feedDefault, x)
      ensures x <= peak.confidence
    {
      ReportsOnce(raws[i], feedDefault, x, some[i / BATCH_SIZE][k].confidence);
    }
  }

  lemma {:induction false} FirstAfterRun(s: Store, feed: nat, batches: seq<Batch>, p: SourceKey)
    requires feed in s.feeds && p.feed == feed
    ensures var t := RunBatches(s, feed, batches);
      && (p in s.sources ==> p in t.sources && t.sources[p].firstSeen == s.sources[p].firstSeen)
      && (p !in s.sources && p in t.sources ==>
        exists i :: 0 <= i < |batches| && FirstIn(batches, i, p.obs) && t.sources[p].firstSeen == batches[i][p.obs].first)
  {
    if batches != [] {
      var front, last := batches[..|batches| - 1], batches[|batches| - 1];
      var t := RunBatches(s, feed, front);
      FirstAfterRun(s, feed, front, p);
      FeedsStay(s, feed, front);
      SourceAfterBatch(t, feed, last, p);
      SourceAfterRun(s, feed, front, p);
      PeakSpec(front, p.obs);
      if p !in s.sources && p in t.sources {
        var i :| 0 <= i < |front| && FirstIn(front, i, p.obs) && t.sources[p].firstSeen == front[i][p.obs].first;
        FirstInMore(batches, i, p.obs);
      } else if p !in s.sources && p.obs in last {
        assert !Mentions(front, p.obs);
        forall j | 0 <= j < |batches| - 1
          ensures p.obs !in batches[j]
        {
          assert front[j] == batches[j];
        }
        assert FirstIn(batches, |batches| - 1, p.obs);
      }
    }
  }

  /** Batch i is the first to mention the key. */
  ghost predicate FirstIn(batches: seq<Batch>, i: nat, k: Key) {
    i < |batches| && k in batches[i] && forall j :: 0 <= j < i ==> k !in batches[j]
  }

  lemma FirstInMore(batches: seq<Batch>, i: nat, k: Key)
    requires batches != [] && FirstIn(batches[..|batches| - 1], i, k)
    ensures FirstIn(batches, i, k) && batches[i] == batches[..|batches| - 1][i]
  {
    assert forall j :: 0 <= j < |batches| - 1 ==> batches[..|batches| - 1][j] == batches[j];
  }

  /** What is stored of one feed's view of a key: raised to what the committed rows report, or taken from them. */
  ghost predicate StoredFromRows(
      s: Store, t: Store, p: SourceKey, raws: seq<Raw>, committed: nat, feedDefault: int, now: int)
  {
    if !exists i :: Stands(raws, committed, p.obs, i) then SourceOf(t, p) == SourceOf(s, p)
    else
      && p in t.sources
      && exists c, last ::
        && IsTopConfidence(raws, committed, p.obs, feedDefault, c) && IsTopTime(raws, committed, p.obs, now, last)
        && if p in s.sources then
            && IsLarger(t.sources[p].confidence, Some(s.sources[p].confidence), c)
            && IsLarger(t.sources[p].native, Some(s.sources[p].native), c)
            && IsLarger(t.sources[p].lastSeen, Some(s.sources[p].lastSeen), last)
            && t.sources[p].firstSeen == s.sources[p].firstSeen
          else
            && t.sources[p].confidence == c && t.sources[p].native == c && t.sources[p].lastSeen == last
            && IsFirstTime(raws, committed, p.obs, now, t.sources[p].firstSeen)
  }

  lemma RunStoresRows(s: Store, feed: nat, raws: seq<Raw>, committed: nat, now: int, p: SourceKey)
    requires feed in s.feeds && p.feed == feed
    requires committed <= |Batches(raws, 0, BATCH_SIZE, s.feeds[feed], now)|
    ensures StoredFromRows(s, RunBatches(s, feed, Batches(raws, 0, BATCH_SIZE, s.feeds[feed], now)[..committed]), p,
      raws, committed, s.feeds[feed], now)
  {
    var some := Batches(raws, 0, BATCH_SIZE, s.feeds[feed], now)[..committed];
    SourceAfterRun(s, feed, some, p);
    PeakOfRows(raws, s.feeds[feed], now, committed, p.obs);
    if PeakOf(some, p.obs).Some? {
      FirstAfterRun(s, feed, some, p);
      if p !in s.sources {
        FirstOfRows(s, feed, raws, committed, now, p);
      }
      StoredIsRaised(s, RunBatches(s, feed, some), p, raws, committed, s.feeds[feed], now, PeakOf(some, p.obs).value);
    }
  }

  lemma StoredIsRaised(
      s: Store, t: Store, p: SourceKey, raws: seq<Raw>, committed: nat, feedDefault: int, now: int, peak: Peak)
    requires RaisedTo(s, t, p, Some(peak)) && exists i :: Stands(raws, committed, p.obs, i)
    requires IsTopConfidence(raws, committed, p.obs, feedDefault, peak.confidence) && IsTopTime(raws, committed, p.obs, now, peak.last)
    requires p in s.sources ==> t.sources[p].firstSeen == s.sources[p].firstSeen
    requires p !in s.sources ==> IsFirstTime(raws, committed, p.obs, now, t.sources[p].firstSeen)
    ensures StoredFromRows(s, t, p, raws, committed, feedDefault, now)
  {
  }

  lemma FirstOfRows(s: Store, feed: nat, raws: seq<Raw>, committed: nat, now: int, p: SourceKey)
    requires feed in s.feeds && p.feed == feed && p !in s.sources
    requires committed <= |Batches(raws, 0, BATCH_SIZE, s.feeds[feed], now)|
    requires p in RunBatches(s, feed, Batches(raws, 0, BATCH_SIZE, s.feeds[feed], now)[..committed]).sources
    ensures IsFirstTime(raws, committed, p.obs, now,
      RunBatches(s, feed, Batches(raws, 0, BATCH_SIZE, s.feeds[feed], now)[..committed]).sources[p].firstSeen)
  {
    var all, k := Batches(raws, 0, BATCH_SIZE, s.feeds[feed], now), p.obs;
    var some := all[..committed];
    FirstAfterRun(s, feed, some, p);
    var b :| 0 <= b < |some| && FirstIn(some, b, k) && RunBatches(s, feed, some).sources[p].firstSeen == some[b][k].first;
    InPrefix(raws, s.feeds[feed], now, committed, b, k);
    var i :| StandsIn(raws, committed, k, i, b, s.feeds[feed], now, all[b][k]);
    forall j | Stands(raws, committed, k, j)
      ensures i / BATCH_SIZE <= j / BATCH_SIZE
    {
      FromPrefix(raws, s.feeds[feed], now, committed, j, k);
      assert k in some[j / BATCH_SIZE];
    }
  }

  predicate IsSeenUpTo(r: Row, before: Option<int>, last: int) {
    r.lastSeen.Some? && IsLarger(r.lastSeen.value, before, last)
  }

  /** What is stored of an observable: untouched without a committed row, and otherwise seen up to the latest of them. */
  ghost predicate RowFromRows(s: Store, t: Store, k: Key, raws: seq<Raw>, committed: nat, now: int) {
    if !exists i :: Stands(raws, committed, k, i) then (k in t.rows <==> k in s.rows) && (k in s.rows ==> t.rows[k] == s.rows[k])
    else
      && k in t.rows
      && (exists last :: IsTopTime(raws, committed, k, now, last) && IsSeenUpTo(t.rows[k], LastOf(s, k), last))
      && t.rows[k].manual == (if k in s.rows then s.rows[k].manual else None)
      && t.rows[k].override_ == (if k in s.rows then s.rows[k].override_ else None)
      && (t.rows[k].override_.Some? ==> t.rows[k].score == t.rows[k].override_.value)
      && (t.rows[k].override_.None? ==> IsMax(t.rows[k].score, Inputs(t, k)))
      && (k in s.rows ==> t.rows[k].firstSeen == s.rows[k].firstSeen)
      && (k !in s.rows ==> IsFirstTime(raws, committed, k, now, t.rows[k].firstSeen))
  }

  lemma {:induction false} RowFirstAfterRun(s: Store, feed: nat, batches: seq<Batch>, k: Key)
    requires feed in s.feeds
    ensures var t := RunBatches(s, feed, batches);
      && (k in s.rows ==> k in t.rows && t.rows[k].firstSeen == s.rows[k].firstSeen)
      && (k !in s.rows && k in t.rows ==>
        exists i :: 0 <= i < |batches| && FirstIn(batches, i, k) && t.rows[k].firstSeen == batches[i][k].first)
  {
    if batches != [] {
      var front, last := batches[..|batches| - 1], batches[|batches| - 1];
      var t := RunBatches(s, feed, front);
      RowFirstAfterRun(s, feed, front, k);
      FeedsStay(s, feed, front);
      RowFirstAfterBatch(t, feed, last, k);
      if k !in s.rows && k in t.rows {
        var i :| 0 <= i < |front| && FirstIn(front, i, k) && t.rows[k].firstSeen == front[i][k].first;
        FirstInMore(batches, i, k);
      } else if k !in s.rows && k in last {
        NotBefore(s, feed, front, k);
        assert forall j :: 0 <= j < |front| ==> batches[j] == front[j];
        assert FirstIn(batches, |batches| - 1, k);
      }
    }
  }

  lemma NotBefore(s: Store, feed: nat, batches: seq<Batch>, k: Key)
    requires feed in s.feeds && k !in RunBatches(s, feed, batches).rows
    ensures forall j :: 0 <= j < |batches| ==> k !in batches[j]
  {
    PeakSpec(batches, k);
    RowsAfterRun(s, feed, batches, k);
  }

  lemma RowFirstAfterBatch(s: Store, feed: nat, batch: Batch, k: Key)
    requires feed in s.feeds
    ensures var t := IngestBatch(s, feed, batch);
      && (k in t.rows <==> k in s.rows || k in batch)
      && (k in s.rows ==> t.rows[k].firstSeen == s.rows[k].firstSeen)
      && (k !in s.rows && k in batch ==> t.rows[k].firstSeen == batch[k].first)
  {
  }

  lemma RunStoresRow(s: Store, feed: nat, raws: seq<Raw>, committed: nat, now: int, k: Key)
    requires feed in s.feeds && committed <= |Batches(raws, 0, BATCH_SIZE, s.feeds[feed], now)|
    ensures RowFromRows(s, RunBatches(s, feed, Batches(raws, 0, BATCH_SIZE, s.feeds[feed], now)[..committed]), k, raws, committed, now)
  {
    var some := Batches(raws, 0, BATCH_SIZE, s.feeds[feed], now)[..committed];
    var t := RunBatches(s, feed, some);
    PeakOfRows(raws, s.feeds[feed], now, committed, k);
    RowsAfterRun(s, feed, some, k);
    RowFirstAfterRun(s, feed, some, k);
    if PeakOf(some, k).Some? {
      RecomputedScoreMeaning(t, k);
      if k !in s.rows {
        var b :| 0 <= b < |some| && FirstIn(some, b, k) && t.rows[k].firstSeen == some[b][k].first;
        FirstRowOf(raws, s.feeds[feed], now, committed, b, k);
      }
    }
  }

  lemma FirstRowOf(raws: seq<Raw>, feedDefault: int, now: int, committed: nat, b: nat, k: Key)
    requires committed <= |Batches(raws, 0, BATCH_SIZE, feedDefault, now)|
    requires b < committed && FirstIn(Batches(raws, 0, BATCH_SIZE, feedDefault, now)[..committed], b, k)
    ensures IsFirstTime(raws, committed, k, now, Batches(raws, 0, BATCH_SIZE, feedDefault, now)[b][k].first)
  {
    var all := Batches(raws, 0, BATCH_SIZE, feedDefault, now);
    var some := all[..committed];
    InPrefix(raws, feedDefault, now, committed, b, k);
    var i :| StandsIn(raws, committed, k, i, b, feedDefault, now, all[b][k]);
    forall j | Stands(raws, committed, k, j)
      ensures i / BATCH_SIZE <= j / BATCH_SIZE
    {
      FromPrefix(raws, feedDefault, now, committed, j, k);
      assert k in some[j / BATCH_SIZE];
    }
  }

  /** Every batch but the last has 500 rows. */
  lemma {:induction false} BatchCount(raws: seq<Raw>, start: nat, feedDefault: int, now: int)
    requires start <= |raws|
    ensures start + |Batches(raws, start, BATCH_SIZE, feedDefault, now)| * 500 >= |raws|
    decreases |raws| - start
  {
    if start < |raws| {
      BatchCount(raws, BatchEnd(start, |raws|, BATCH_SIZE), feedDefault, now);
    }
  }

  lemma UnfinishedIff(raws: seq<Raw>, feedDefault: int, now: int, committed: nat)
    requires committed <= |Batches(raws, 0, BATCH_SIZE, feedDefault, now)|
    ensures committed < |Batches(raws, 0, BATCH_SIZE, feedDefault, now)| <==> committed * 500 < |raws|
  {
    BatchCount(raws, 0, feedDefault, now);
    if committed < |Batches(raws, 0, BATCH_SIZE, feedDefault, now)| {
      BatchAt(raws, 0, feedDefault, now, committed);
    }
  }

  // ── The ingesting loop ────────────────────────────────────────────────

  /** What the database answers to one attempt at a batch. Only a commit leaves anything behind. */
  datatype Answer = Commits | Deadlock | OtherError

  type Answers = (nat, nat) -> Answer

  /** Attempt j of batch i is reached when every earlier attempt met a deadlock. */
  predicate Reached(answers: Answers, i: nat, j: nat) {
    forall e: nat :: e < j ==> answers(i, e) == Deadlock
  }

  /** The first attempt or one of three retries commits, after nothing but deadlocks. */
  predicate Succeeds(answers: Answers, i: nat) {
    exists j: nat :: j <= 3 && Reached(answers, i, j) && answers(i, j) == Commits
  }

  method Deduplicate(raws: seq<Raw>) returns (seen: map<Key, Raw>)
    ensures seen == LastWins(raws)
  {
    seen := map[];
    for i := 0 to |raws|
      invariant seen == LastWins(raws[..i])
    {
      assert raws[..i + 1][..i] == raws[..i];
      seen := seen[raws[i].key := raws[i]];
    }
    assert raws[..|raws|] == raws;
  }

  /** The three statements of one transaction. */
  method CommitBatch(db: D.Database, feed: nat, batch: Batch)
    requires feed in db.feeds
    modifies db`rows, db`sources
    ensures db.State() == IngestBatch(old(db.State()), feed, batch)
  {
    ghost var s := db.State();
    var rows, sources := UpsertRows(db.State(), batch), UpsertSources(db.State(), feed, batch);
    db.rows := rows;
    db.sources := sources;
    assert db.State() == s.(rows := UpsertRows(s, batch), sources := UpsertSources(s, feed, batch));
    db.RecomputeScores(batch.Keys);
  }

  /** Retries a batch after deadlocks, at most MAX_RETRIES times; a batch that fails leaves nothing behind. */
  method TryBatch(db: D.Database, feed: nat, batch: Batch, i: nat, answers: Answers) returns (ok: bool)
    requires feed in db.feeds
    modifies db`rows, db`sources
    ensures ok == Succeeds(answers, i)
    ensures db.State() == if ok then IngestBatch(old(db.State()), feed, batch) else old(db.State())
  {
    var attempt := 0;
    while attempt <= MAX_RETRIES
      invariant attempt <= MAX_RETRIES + 1 && Reached(answers, i, attempt)
      invariant db.State() == old(db.State())
      decreases MAX_RETRIES + 1 - attempt
    {
      match answers(i, attempt) {
        case Commits =>
          CommitBatch(db, feed, batch);
          return true;
        case Deadlock =>
          if attempt == MAX_RETRIES {
            return false;
          }
        case OtherError =>
          return false;
      }
      attempt := attempt + 1;
    }
    ok := false;
  }

  function Sizes(batches: seq<Batch>): nat {
    if batches == [] then 0 else Sizes(batches[..|batches| - 1]) + |batches[|batches| - 1]|
  }

  /** t is s after the first so many batches, all of which succeeded. */
  ghost predicate Ingested(s: Store, t: Store, feed: nat, all: seq<Batch>, committed: nat, ingested: nat, answers: Answers) {
    && committed <= |all| && t == RunBatches(s, feed, all[..committed]) && ingested == Sizes(all[..committed])
    && forall i :: 0 <= i < committed ==> Succeeds(answers, i)
  }

  lemma IngestedStep(s: Store, t: Store, feed: nat, all: seq<Batch>, committed: nat, ingested: nat, answers: Answers)
    requires Ingested(s, t, feed, all, committed, ingested, answers) && committed < |all| && Succeeds(answers, committed)
    ensures Ingested(s, IngestBatch(t, feed, all[committed]), feed, all, committed + 1, ingested + |all[committed]|, answers)
  {
    RunNext(s, feed, all, committed);
  }

  /** Runs the batches until one fails for good: what is stored is exactly the committed prefix. */
  method BulkUpsert(db: D.Database, feed: nat, raws: seq<Raw>, now: int, answers: Answers)
    returns (ingested: nat, committed: nat, failed: bool)
    requires feed in db.feeds
    modifies db`rows, db`sources
    ensures var batches := Batches(raws, 0, BATCH_SIZE, old(db.feeds[feed]), now);
      && Ingested(old(db.State()), db.State(), feed, batches, committed, ingested, answers)
      && (failed <==> committed < |batches|) && (failed ==> !Succeeds(answers, committed))
    ensures forall p: SourceKey :: p.feed == feed ==>
      StoredFromRows(old(db.State()), db.State(), p, raws, committed, old(db.feeds[feed]), now)
    ensures forall p: SourceKey :: p.feed != feed ==> SourceOf(db.State(), p) == SourceOf(old(db.State()), p)
    ensures forall k :: RowFromRows(old(db.State()), db.State(), k, raws, committed, now)
    ensures failed <==> committed * 500 < |raws|
  {
    ghost var s := db.State();
    ghost var all := Batches(raws, 0, BATCH_SIZE, db.feeds[feed], now);
    var start := 0;
    ingested, committed, failed := 0, 0, false;
    assert all[..0] == [] && all[0..] == all;
    while start < |raws|
      invariant start <= |raws| && committed <= |all| && all[committed..] == Batches(raws, start, BATCH_SIZE, s.feeds[feed], now)
      invariant db.feeds == s.feeds
      invariant Ingested(s, db.State(), feed, all, committed, ingested, answers)
    {
      var stop := BatchEnd(start, |raws|, BATCH_SIZE);
      var seen := Deduplicate(raws[start..stop]);
      var batch := Resolve(seen, db.feeds[feed], now);
      NextBatch(all, committed, raws, start, s.feeds[feed], now);
      ghost var t := db.State();
      var ok := TryBatch(db, feed, batch, committed, answers);
      if !ok {
        failed := true;
        RowsStored(s, db.State(), feed, raws, committed, ingested, now, answers);
        return;
      }
      IngestedStep(s, t, feed, all, committed, ingested, answers);
      ingested, committed, start := ingested + |batch|, committed + 1, stop;
    }
    assert all[committed..] == [];
    RowsStored(s, db.State(), feed, raws, committed, ingested, now, answers);
  }

  lemma RowsStored(s: Store, t: Store, feed: nat, raws: seq<Raw>, committed: nat, ingested: nat, now: int, answers: Answers)
    requires feed in s.feeds
    requires Ingested(s, t, feed, Batches(raws, 0, BATCH_SIZE, s.feeds[feed], now), committed, ingested, answers)
    ensures forall p: SourceKey :: p.feed == feed ==> StoredFromRows(s, t, p, raws, committed, s.feeds[feed], now)
    ensures forall p: SourceKey :: p.feed != feed ==> SourceOf(t, p) == SourceOf(s, p)
    ensures forall k :: RowFromRows(s, t, k, raws, committed, now)
    ensures committed < |Batches(raws, 0, BATCH_SIZE, s.feeds[feed], now)| <==> committed * 500 < |raws|
  {
    UnfinishedIff(raws, s.feeds[feed], now, committed);
    forall k
      ensures RowFromRows(s, t, k, raws, committed, now)
    {
      RunStoresRow(s, feed, raws, committed, now, k);
    }
    forall p: SourceKey | p.feed == feed
      ensures StoredFromRows(s, t, p, raws, committed, s.feeds[feed], now)
    {
      RunStoresRows(s, feed, raws, committed, now, p);
    }
    forall p: SourceKey | p.feed != feed
      ensures SourceOf(t, p) == SourceOf(s, p)
    {
      SourceAfterRun(s, feed, Batches(raws, 0, BATCH_SIZE, s.feeds[feed], now)[..committed], p);
    }
  }

  lemma NextBatch(all: seq<Batch>, i: nat, raws: seq<Raw>, start: nat, feedDefault: int, now: int)
    requires start < |raws| && i <= |all| && all[i..] == Batches(raws, start, BATCH_SIZE, feedDefault, now)
    ensures i < |all| && all[i] == Resolve(LastWins(raws[start..BatchEnd(start, |raws|, BATCH_SIZE)]), feedDefault, now)
    ensures all[i + 1..] == Batches(raws, BatchEnd(start, |raws|, BATCH_SIZE), BATCH_SIZE, feedDefault, now)
  {
    assert all[i] == all[i..][0];
    assert all[i + 1..] == all[i..][1..];
  }

  lemma RunNext(s: Store, feed: nat, all: seq<Batch>, i: nat)
    requires i < |all|
    ensures RunBatches(s, feed, all[..i + 1]) == IngestBatch(RunBatches(s, feed, all[..i]), feed, all[i])
    ensures Sizes(all[..i + 1]) == Sizes(all[..i]) + |all[i]|
  {
    assert all[..i + 1][..i] == all[..i];
  }
}
