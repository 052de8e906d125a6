/** Every operation that writes a table behind the score, as one committed step; the invariant over all runs; decay; the backfill. */
module ScoreOps {
  import opened Wrappers
  import opened Observables
  import opened ScoreState

  function Max(a: int, b: int): int {
    if a < b then b else a
  }

  // ── Analyst operations ────────────────────────────────────────────────

  function CreateRow(s: Store, k: Key, confidence: int, now: int): Store {
    var row :=
      if k in s.rows then
        var r := s.rows[k];
        r.(manual := Greatest(r.manual, Some(confidence)), lastSeen := Greatest(r.lastSeen, Some(now)))
      else Row(confidence, Some(confidence), None, now, Some(now));
    s.(rows := s.rows[k := row])
  }

  function CreateObservable(s: Store, k: Key, confidence: int, now: int): Store {
    Recompute(CreateRow(s, k, confidence, now), {k})
  }

  function WithOverride(s: Store, k: Key, v: Option<int>): Store {
    if k in s.rows then s.(rows := s.rows[k := s.rows[k].(override_ := v)]) else s
  }

  /** Some pins the score, None clears the pin. */
  function SetOverride(s: Store, k: Key, v: Option<int>): Store {
    if k in s.rows then Recompute(WithOverride(s, k, v), {k}) else s
  }

  // ── Reports ───────────────────────────────────────────────────────────

  /** A manual link carries no confidence, so nothing is recomputed. */
  function LinkObservable(s: Store, report: nat, k: Key): Store {
    if report in s.reports && k in s.rows && LinkKey(report, k) !in s.links
    then s.(links := s.links[LinkKey(report, k) := Link(false, None)])
    else s
  }

  function UnlinkObservable(s: Store, report: nat, k: Key): Store {
    if report in s.reports && LinkKey(report, k) in s.links
    then Recompute(s.(links := s.links - {LinkKey(report, k)}), {k})
    else s
  }

  function LinkedTo(s: Store, report: nat): set<Key> {
    set p | p in s.links && p.report == report :: p.obs
  }

  function WithoutReport(s: Store, report: nat): Store {
    s.(links := map p | p in s.links && p.report != report :: s.links[p], reports := s.reports - {report})
  }

  function DeleteReport(s: Store, report: nat): Store {
    if report in s.reports then Recompute(WithoutReport(s, report), LinkedTo(s, report)) else s
  }

  function WithCandidates(s: Store, keys: set<Key>, confidence: int, now: int): Store {
    s.(rows := map k | k in s.rows.Keys + keys ::
      if k in s.rows then s.rows[k] else Row(confidence, None, None, now, Some(now)))
  }

  function Attributed(s: Store, report: nat, keys: set<Key>, confidence: int): Store {
    var ends := set k | k in keys :: LinkKey(report, k);
    s.(links := map p | p in s.links.Keys + ends ::
      if p in ends && !(p in s.links && s.links[p].imported) then Link(true, Some(confidence)) else s.links[p])
  }

  /** Import of a report's candidates; hidden ones are created if missing but not attributed. */
  function ImportCandidates(s: Store, report: nat, keys: set<Key>, hidden: set<Key>, confidence: int, now: int): Store {
    if report in s.reports
    then Recompute(Attributed(WithCandidates(s, keys, confidence, now), report, keys - hidden, confidence), keys - hidden)
    else s
  }

  // ── Feeds ─────────────────────────────────────────────────────────────

  function SourcedBy(s: Store, feeds: set<nat>): set<Key> {
    set p | p in s.sources && p.feed in feeds :: p.obs
  }

  function WithoutFeeds(s: Store, feeds: set<nat>): Store {
    s.(sources := map p | p in s.sources && p.feed !in feeds :: s.sources[p], feeds := s.feeds - feeds)
  }

  /** Deleting one feed, or several deprecated ones with a single recompute at the end. */
  function RemoveFeeds(s: Store, feeds: set<nat>): Store {
    Recompute(WithoutFeeds(s, feeds), SourcedBy(s, feeds))
  }

  datatype Raw = Raw(key: Key, native: Option<int>, firstSeen: Option<int>, lastSeen: Option<int>)

  function SourceConfidence(raw: Raw, feedDefault: int): int {
    if raw.native.Some? then (if raw.native.value < 0 then 0 else if raw.native.value > 100 then 100 else raw.native.value)
    else feedDefault
  }

  function OrNow(t: Option<int>, now: int): int {
    if t.Some? then t.value else now
  }

  /** One observation of a batch as it is written: confidence and times resolved. */
  datatype Sighting = Sighting(confidence: int, first: int, last: int)

  function SightingOf(raw: Raw, feedDefault: int, now: int): Sighting {
    Sighting(SourceConfidence(raw, feedDefault), OrNow(raw.firstSeen, now), OrNow(raw.lastSeen, now))
  }

  function UpsertRows(s: Store, batch: map<Key, Sighting>): map<Key, Row> {
    map k | k in s.rows.Keys + batch.Keys ::
      if k !in batch then s.rows[k]
      else if k in s.rows then s.rows[k].(lastSeen := Greatest(s.rows[k].lastSeen, Some(batch[k].last)))
      else Row(batch[k].confidence, None, None, batch[k].first, Some(batch[k].last))
  }

  function MergeSource(old_: Source, x: Sighting): Source {
    Source(Max(old_.confidence, x.confidence), Max(old_.native, x.confidence), old_.firstSeen, Max(old_.lastSeen, x.last))
  }

  function BatchSources(batch: map<Key, Sighting>, feed: nat): set<SourceKey> {
    set k | k in batch :: SourceKey(k, feed)
  }

  function UpsertSources(s: Store, feed: nat, batch: map<Key, Sighting>): map<SourceKey, Source> {
    map p | p in s.sources.Keys + BatchSources(batch, feed) ::
      if p in BatchSources(batch, feed) then
        var x := batch[p.obs];
        if p in s.sources then MergeSource(s.sources[p], x) else Source(x.confidence, x.confidence, x.first, x.last)
      else s.sources[p]
  }

  /** One committed ingest batch, already deduplicated by key. */
  function IngestBatch(s: Store, feed: nat, batch: map<Key, Sighting>): Store {
    if feed in s.feeds
    then Recompute(s.(rows := UpsertRows(s, batch), sources := UpsertSources(s, feed, batch)), batch.Keys)
    else s
  }

  // ── Decay and retention ───────────────────────────────────────────────

  const DAY := 86_400

  datatype DecaySettings = DecaySettings(enabled: bool, days: int, rate: int, floor: int)

  predicate IsStale(src: Source, now: int, st: DecaySettings) {
    src.lastSeen < now - st.days * DAY && src.native > st.floor
  }

  function WeeksStale(src: Source, now: int, st: DecaySettings): int {
    Max(1, ((now - src.lastSeen) / DAY - st.days) / 7)
  }

  /** The confidence a stale source is given, from its native confidence. */
  function DecayedConfidence(src: Source, now: int, st: DecaySettings): int {
    if IsStale(src, now, st) then Max(st.floor, src.native - WeeksStale(src, now, st) * st.rate) else src.confidence
  }

  function DecaySources(s: Store, now: int, st: DecaySettings): map<SourceKey, Source> {
    map p | p in s.sources :: s.sources[p].(confidence := DecayedConfidence(s.sources[p], now, st))
  }

  function DecayAffected(s: Store, now: int, st: DecaySettings): set<Key> {
    set p | p in s.sources && DecayedConfidence(s.sources[p], now, st) != s.sources[p].confidence :: p.obs
  }

  function ApplyDecay(s: Store, now: int, st: DecaySettings): Store {
    if st.enabled then Recompute(s.(sources := DecaySources(s, now, st)), DecayAffected(s, now, st)) else s
  }

  /** Observables leave with their sources and links: one retention batch, or one manual deletion. */
  function DeleteObservables(s: Store, keys: set<Key>): Store {
    s.(rows := s.rows - keys,
       sources := map p | p in s.sources && p.obs !in keys :: s.sources[p],
       links := map p | p in s.links && p.obs !in keys :: s.links[p])
  }

  // ── All operations ────────────────────────────────────────────────────

  datatype Op =
    | AddFeed(feed: nat, feedDefault: int)
    | AddReport(report: nat)
    | Create(key: Key, confidence: int, now: int)
    | Override(key: Key, pin: Option<int>)
    | LinkOp(report: nat, key: Key)
    | UnlinkOp(report: nat, key: Key)
    | DeleteReportOp(report: nat)
    | Import(report: nat, keys: set<Key>, hidden: set<Key>, confidence: int, now: int)
    | RemoveFeedsOp(feeds: set<nat>)
    | Ingest(feed: nat, batch: map<Key, Raw>, now: int)
    | Decay(now: int, settings: DecaySettings)
    | Delete(keys: set<Key>)

  function Resolve(batch: map<Key, Raw>, feedDefault: int, now: int): map<Key, Sighting> {
    map k | k in batch :: SightingOf(batch[k], feedDefault, now)
  }

  function Step(s: Store, op: Op): Store {
    match op
    case AddFeed(f, d) => s.(feeds := s.feeds[f := d])
    case AddReport(r) => s.(reports := s.reports + {r})
    case Create(k, c, now) => CreateObservable(s, k, c, now)
    case Override(k, pin) => SetOverride(s, k, pin)
    case LinkOp(r, k) => LinkObservable(s, r, k)
    case UnlinkOp(r, k) => UnlinkObservable(s, r, k)
    case DeleteReportOp(r) => DeleteReport(s, r)
    case Import(r, keys, hidden, c, now) => ImportCandidates(s, r, keys, hidden, c, now)
    case RemoveFeedsOp(fs) => RemoveFeeds(s, fs)
    case Ingest(f, batch, now) => if f in s.feeds then IngestBatch(s, f, Resolve(batch, s.feeds[f], now)) else s
    case Decay(now, st) => ApplyDecay(s, now, st)
    case Delete(keys) => DeleteObservables(s, keys)
  }

  /** The schemas bound every confidence; the decay settings are not bounded there. */
  predicate Accepted(op: Op) {
    match op
    case AddFeed(_, d) => InRange(d)
    case Create(_, c, _) => InRange(c)
    case Override(_, pin) => pin.Some? ==> InRange(pin.value)
    case Import(_, _, _, c, _) => InRange(c)
    case Decay(_, st) => SafeSettings(st)
    case _ => true
  }

  /** Settings under which decay cannot leave the range or pass the native confidence. */
  predicate SafeSettings(st: DecaySettings) {
    !st.enabled || st.floor >= 100 || st.rate == 0 || (st.rate > 0 && st.floor >= 0)
  }

  // ── Each step keeps the invariant ─────────────────────────────────────

  lemma CreateKeeps(s: Store, k: Key, confidence: int, now: int)
    requires Valid(s) && InRange(confidence)
    ensures Valid(CreateObservable(s, k, confidence, now))
  {
    RecomputeTouched(s, CreateRow(s, k, confidence, now), {k});
  }

  /** x is the larger of a stored number, if there is one, and a new one. */
  predicate IsLarger(x: int, old_: Option<int>, new_: int) {
    && x >= new_ && (old_.Some? ==> x >= old_.value)
    && (x == new_ || Some(x) == old_)
  }

  /** Only the row of k is different. */
  ghost predicate OnlyRow(s: Store, t: Store, k: Key) {
    && t.sources == s.sources && t.links == s.links && t.feeds == s.feeds && t.reports == s.reports
    && t.rows.Keys == s.rows.Keys + {k} && forall j :: j in s.rows && j != k ==> t.rows[j] == s.rows[j]
  }

  /** A submission of a new observable: it scores what was submitted. */
  predicate IsNewRow(r: Row, confidence: int, now: int) {
    r == Row(confidence, Some(confidence), None, now, Some(now))
  }

  /** A re-submission raises the manual confidence and the last-seen time, and without an override the score is the greatest of the
      old inputs and the new one. */
  ghost predicate IsResubmitted(s: Store, k: Key, r: Row, confidence: int, now: int)
    requires k in s.rows
  {
    var old_ := s.rows[k];
    && r.manual.Some? && IsLarger(r.manual.value, old_.manual, confidence)
    && r.lastSeen.Some? && IsLarger(r.lastSeen.value, old_.lastSeen, now)
    && r.firstSeen == old_.firstSeen && r.override_ == old_.override_
    && (old_.override_.None? ==> IsMax(r.score, Inputs(s, k) + {confidence}))
    && (old_.override_.Some? ==> r.score == old_.override_.value)
  }

  lemma CreateMeans(s: Store, k: Key, confidence: int, now: int)
    requires Ranged(s)
    ensures var t := CreateObservable(s, k, confidence, now);
      && OnlyRow(s, t, k)
      && (k !in s.rows ==> IsNewRow(t.rows[k], confidence, now))
      && (k in s.rows ==> IsResubmitted(s, k, t.rows[k], confidence, now))
  {
    var u := CreateRow(s, k, confidence, now);
    assert FeedScores(u, k) == FeedScores(s, k) && LinkScores(u, k) == LinkScores(s, k);
    RecomputedScoreMeaning(u, k);
    if k in s.rows {
      assert Inputs(u, k) <= Inputs(s, k) + {confidence};
      assert forall x :: x in Inputs(s, k) + {confidence} ==> x in Inputs(u, k) || x <= u.rows[k].manual.value;
    } else {
      assert FeedScores(s, k) == {} && LinkScores(s, k) == {};
      assert Inputs(u, k) == {confidence};
    }
  }

  /** Pinning sets the score; clearing the pin gives it back to the inputs. Nothing else in the row changes. */
  lemma OverrideMeans(s: Store, k: Key, v: Option<int>)
    requires k in s.rows
    ensures var t := SetOverride(s, k, v);
      && OnlyRow(s, t, k) && t.rows[k] == s.rows[k].(override_ := v, score := t.rows[k].score)
      && (v.Some? ==> t.rows[k].score == v.value)
      && (v.None? && Inputs(s, k) != {} ==> IsMax(t.rows[k].score, Inputs(s, k)))
      && (v.None? && Inputs(s, k) == {} ==> t.rows[k].score == s.rows[k].score)
  {
    var u := WithOverride(s, k, v);
    assert FeedScores(u, k) == FeedScores(s, k) && LinkScores(u, k) == LinkScores(s, k);
    RecomputedScoreMeaning(u, k);
  }

  /** The rows outside ids are as they were, and the others differ in their scores alone. */
  ghost predicate OnlyScores(s: Store, t: Store, ids: set<Key>) {
    t.rows.Keys == s.rows.Keys && forall k :: k in s.rows ==>
      t.rows[k] == s.rows[k].(score := t.rows[k].score) && (k !in ids ==> t.rows[k] == s.rows[k])
  }

  /** Exactly the links of one report go, with the report. */
  lemma DeleteReportMeans(s: Store, report: nat)
    requires report in s.reports
    ensures var t := DeleteReport(s, report);
      && t.reports == s.reports - {report} && t.sources == s.sources && t.feeds == s.feeds
      && (forall p: LinkKey :: p in t.links <==> p in s.links && p.report != report)
      && (forall p :: p in t.links ==> t.links[p] == s.links[p])
      && OnlyScores(s, t, set k | k in s.rows && LinkKey(report, k) in s.links)
  {
    var t := DeleteReport(s, report);
    forall k | k in s.rows && LinkKey(report, k) !in s.links
      ensures t.rows[k] == s.rows[k]
    {
      assert forall p :: p in s.links && p.report == report ==> p == LinkKey(report, p.obs);
    }
  }

  /** Exactly the sources of the feeds go, with the feeds. */
  lemma RemoveFeedsMeans(s: Store, feeds: set<nat>)
    ensures var t := RemoveFeeds(s, feeds);
      && t.reports == s.reports && t.links == s.links && t.feeds.Keys == s.feeds.Keys - feeds
      && (forall f :: f in t.feeds ==> t.feeds[f] == s.feeds[f])
      && (forall p: SourceKey :: p in t.sources <==> p in s.sources && p.feed !in feeds)
      && (forall p :: p in t.sources ==> t.sources[p] == s.sources[p])
      && OnlyScores(s, t, set p | p in s.sources && p.feed in feeds :: p.obs)
  {
  }

  /** A link of the report to one of the keys that is not attributed yet. */
  predicate Gains(s: Store, report: nat, keys: set<Key>, p: LinkKey) {
    p.report == report && p.obs in keys && (p !in s.links || !s.links[p].imported)
  }

  /** What an import does to the tables: missing rows are created, each key to attribute gets an attributed link with the import's
      confidence unless it has one, and no other link changes. */
  lemma ImportMeans(s: Store, report: nat, keys: set<Key>, hidden: set<Key>, confidence: int, now: int)
    requires report in s.reports
    ensures var t := ImportCandidates(s, report, keys, hidden, confidence, now);
      && t.sources == s.sources && t.feeds == s.feeds && t.reports == s.reports && t.rows.Keys == s.rows.Keys + keys
      && (forall k :: k in s.rows ==> t.rows[k] == s.rows[k].(score := t.rows[k].score))
      && (forall k :: k in keys && k !in s.rows ==>
        t.rows[k] == Row(t.rows[k].score, None, None, now, Some(now)) && (k in hidden ==> t.rows[k].score == confidence))
      && (forall k :: k in s.rows && (k !in keys || k in hidden) ==> t.rows[k] == s.rows[k])
      && (forall p :: p in t.links <==> p in s.links || (p.report == report && p.obs in keys && p.obs !in hidden))
      && (forall p :: p in t.links ==> t.links[p] == if Gains(s, report, keys - hidden, p) then Link(true, Some(confidence)) else s.links[p])
  {
    var u := WithCandidates(s, keys, confidence, now);
    var t := Attributed(u, report, keys - hidden, confidence);
    ImportedLinks(u, report, keys - hidden, confidence);
  }

  lemma ImportedLinks(s: Store, report: nat, keys: set<Key>, confidence: int)
    ensures var t := Attributed(s, report, keys, confidence);
      && t.rows == s.rows
      && (forall p :: p in t.links <==> p in s.links || (p.report == report && p.obs in keys))
      && (forall p :: p in t.links ==> t.links[p] == if Gains(s, report, keys, p) then Link(true, Some(confidence)) else s.links[p])
  {
    var ends := set k | k in keys :: LinkKey(report, k);
    forall p: LinkKey
      ensures p in ends <==> p.report == report && p.obs in keys
    {
      if p.report == report && p.obs in keys {
        assert LinkKey(report, p.obs) == p;
      }
    }
  }

  lemma OverrideKeeps(s: Store, k: Key, v: Option<int>)
    requires Valid(s) && (v.Some? ==> InRange(v.value))
    ensures Valid(SetOverride(s, k, v))
  {
    if k in s.rows {
      RecomputeTouched(s, WithOverride(s, k, v), {k});
    }
  }

  /** Nothing is recomputed: a link without an analyst confidence is no input. */
  lemma LinkKeeps(s: Store, report: nat, k: Key)
    requires Valid(s)
    ensures Valid(LinkObservable(s, report, k))
  {
    var t := LinkObservable(s, report, k);
    forall j | j in t.rows
      ensures ScoreOk(t, j)
    {
      SameInputs(s, t, j);
    }
  }

  lemma UnlinkKeeps(s: Store, report: nat, k: Key)
    requires Valid(s)
    ensures Valid(UnlinkObservable(s, report, k))
  {
    if report in s.reports && LinkKey(report, k) in s.links {
      RecomputeTouched(s, s.(links := s.links - {LinkKey(report, k)}), {k});
    }
  }

  lemma DeleteReportKeeps(s: Store, report: nat)
    requires Valid(s)
    ensures Valid(DeleteReport(s, report))
  {
    if report in s.reports {
      var t := WithoutReport(s, report);
      forall j | j in t.rows && j !in LinkedTo(s, report)
        ensures Untouched(s, t, j)
      {
        forall p: LinkKey | p.obs == j
          ensures AnalystOf(s, p) == AnalystOf(t, p)
        {
          assert p in s.links && p.report == report ==> p.obs in LinkedTo(s, report);
        }
      }
      RecomputeTouched(s, t, LinkedTo(s, report));
    }
  }

  lemma RemoveFeedsKeeps(s: Store, feeds: set<nat>)
    requires Valid(s)
    ensures Valid(RemoveFeeds(s, feeds))
  {
    var t := WithoutFeeds(s, feeds);
    forall j | j in t.rows && j !in SourcedBy(s, feeds)
      ensures Untouched(s, t, j)
    {
      forall p: SourceKey | p.obs == j
        ensures ConfidenceOf(s, p) == ConfidenceOf(t, p)
      {
        assert p in s.sources && p.feed in feeds ==> p.obs in SourcedBy(s, feeds);
      }
    }
    RecomputeTouched(s, t, SourcedBy(s, feeds));
  }

  lemma DeleteKeeps(s: Store, keys: set<Key>)
    requires Valid(s)
    ensures Valid(DeleteObservables(s, keys))
  {
    var t := DeleteObservables(s, keys);
    forall j | j in t.rows
      ensures ScoreOk(t, j)
    {
      SameInputs(s, t, j);
    }
  }

  lemma ImportKeeps(s: Store, report: nat, keys: set<Key>, hidden: set<Key>, confidence: int, now: int)
    requires Valid(s) && InRange(confidence)
    ensures Valid(ImportCandidates(s, report, keys, hidden, confidence, now))
  {
    if report in s.reports {
      var u := WithCandidates(s, keys, confidence, now);
      var t := Attributed(u, report, keys - hidden, confidence);
      CandidatesKeep(s, keys, confidence, now);
      forall j | j in t.rows && j !in keys - hidden
        ensures Untouched(u, t, j)
      {
      }
      AttributedRanged(u, report, keys - hidden, confidence);
      RecomputeTouched(u, t, keys - hidden);
    }
  }

  /** A row that is inserted before it has inputs keeps the score it is inserted with. */
  lemma CandidatesKeep(s: Store, keys: set<Key>, confidence: int, now: int)
    requires Valid(s) && InRange(confidence)
    ensures Valid(WithCandidates(s, keys, confidence, now))
  {
    var t := WithCandidates(s, keys, confidence, now);
    forall j | j in t.rows
      ensures ScoreOk(t, j)
    {
      if j in s.rows {
        SameInputs(s, t, j);
      } else {
        assert FeedScores(t, j) == {} && LinkScores(t, j) == {};
      }
    }
  }

  lemma AttributedRanged(s: Store, report: nat, keys: set<Key>, confidence: int)
    requires Ranged(s) && InRange(confidence) && report in s.reports && keys <= s.rows.Keys
    ensures Ranged(Attributed(s, report, keys, confidence))
  {
  }

  ghost predicate BatchRanged(batch: map<Key, Sighting>) {
    forall k :: k in batch ==> InRange(batch[k].confidence)
  }

  lemma IngestRanged(s: Store, feed: nat, batch: map<Key, Sighting>)
    requires Ranged(s) && feed in s.feeds && BatchRanged(batch)
    ensures Ranged(s.(rows := UpsertRows(s, batch), sources := UpsertSources(s, feed, batch)))
  {
  }

  lemma IngestKeeps(s: Store, feed: nat, batch: map<Key, Sighting>)
    requires Valid(s) && BatchRanged(batch)
    ensures Valid(IngestBatch(s, feed, batch))
  {
    if feed in s.feeds {
      var t := s.(rows := UpsertRows(s, batch), sources := UpsertSources(s, feed, batch));
      IngestRanged(s, feed, batch);
      forall j | j in t.rows && j !in batch.Keys
        ensures Untouched(s, t, j)
      {
      }
      RecomputeTouched(s, t, batch.Keys);
    }
  }

  lemma WeeksStaleAtLeastOne(src: Source, now: int, st: DecaySettings)
    requires st.rate >= 0
    ensures WeeksStale(src, now, st) * st.rate >= 0
  {
  }

  lemma DecayedInRange(src: Source, now: int, st: DecaySettings)
    requires SourceOk(src) && st.enabled && SafeSettings(st)
    ensures 0 <= DecayedConfidence(src, now, st) <= src.native
  {
    if st.floor < 100 {
      WeeksStaleAtLeastOne(src, now, st);
    }
  }

  /** Enabled decay keeps every source between 0 and its native confidence exactly under safe settings. */
  lemma SafeSettingsExact(st: DecaySettings)
    requires st.enabled
    ensures SafeSettings(st) <==> forall src, now :: SourceOk(src) ==> 0 <= DecayedConfidence(src, now, st) <= src.native
  {
    if SafeSettings(st) {
      forall src, now | SourceOk(src)
        ensures 0 <= DecayedConfidence(src, now, st) <= src.native
      {
        DecayedInRange(src, now, st);
      }
    } else {
      var now := st.days * DAY + 1;
      var src := if st.rate < 0 then Source(100, 100, 0, 0) else Source(0, 0, 0, 0);
      var weeks := WeeksStale(src, now, st);
      assert st.rate < 0 ==> weeks * st.rate < 0;
      assert st.rate > 0 ==> weeks * st.rate > 0;
      assert SourceOk(src) && IsStale(src, now, st) && !(0 <= DecayedConfidence(src, now, st) <= src.native);
    }
  }

  lemma DecayKeeps(s: Store, now: int, st: DecaySettings)
    requires Valid(s) && SafeSettings(st)
    ensures Valid(ApplyDecay(s, now, st))
  {
    if st.enabled {
      var t := s.(sources := DecaySources(s, now, st));
      forall p | p in t.sources
        ensures SourceOk(t.sources[p])
      {
        DecayedInRange(s.sources[p], now, st);
      }
      forall j | j in t.rows && j !in DecayAffected(s, now, st)
        ensures Untouched(s, t, j)
      {
        forall p: SourceKey | p.obs == j
          ensures ConfidenceOf(s, p) == ConfidenceOf(t, p)
        {
          assert p in s.sources && t.sources[p].confidence != s.sources[p].confidence ==> p.obs in DecayAffected(s, now, st);
        }
      }
      RecomputeTouched(s, t, DecayAffected(s, now, st));
    }
  }

  lemma ResolveRanged(batch: map<Key, Raw>, feedDefault: int, now: int)
    requires InRange(feedDefault)
    ensures BatchRanged(Resolve(batch, feedDefault, now))
  {
  }

  lemma StepKeeps(s: Store, op: Op)
    requires Valid(s) && Accepted(op)
    ensures Valid(Step(s, op))
  {
    match op
    case AddFeed(f, d) => SetupKeeps(s, Step(s, op));
    case AddReport(r) => SetupKeeps(s, Step(s, op));
    case Create(k, c, now) => CreateKeeps(s, k, c, now);
    case Override(k, pin) => OverrideKeeps(s, k, pin);
    case LinkOp(r, k) => LinkKeeps(s, r, k);
    case UnlinkOp(r, k) => UnlinkKeeps(s, r, k);
    case DeleteReportOp(r) => DeleteReportKeeps(s, r);
    case Import(r, keys, hidden, c, now) => ImportKeeps(s, r, keys, hidden, c, now);
    case RemoveFeedsOp(fs) => RemoveFeedsKeeps(s, fs);
    case Ingest(f, batch, now) =>
      if f in s.feeds {
        ResolveRanged(batch, s.feeds[f], now);
        IngestKeeps(s, f, Resolve(batch, s.feeds[f], now));
      }
    case Decay(now, st) => DecayKeeps(s, now, st);
    case Delete(keys) => DeleteKeeps(s, keys);
  }

  lemma SetupKeeps(s: Store, t: Store)
    requires Valid(s) && Ranged(t) && t.rows == s.rows && t.sources == s.sources && t.links == s.links
    ensures Valid(t)
  {
    forall j | j in t.rows
      ensures ScoreOk(t, j)
    {
      SameInputs(s, t, j);
    }
  }

  function Run(s: Store, ops: seq<Op>): Store {
    if ops == [] then s else Step(Run(s, ops[..|ops| - 1]), ops[|ops| - 1])
  }

  lemma EmptyIsValid()
    ensures Valid(EMPTY)
  {
  }

  /** From any valid store, the empty one or an upgraded one, every state reachable by any sequence of operations has as its score
      the override, else the maximum input, and all ranges hold. */
  lemma {:induction false} EveryRunKeepsScores(s: Store, ops: seq<Op>)
    requires Valid(s) && forall i :: 0 <= i < |ops| ==> Accepted(ops[i])
    ensures Valid(Run(s, ops))
  {
    if ops != [] {
      EveryRunKeepsScores(s, ops[..|ops| - 1]);
      StepKeeps(Run(s, ops[..|ops| - 1]), ops[|ops| - 1]);
    }
  }

  // ── Decay over time ───────────────────────────────────────────────────

  lemma RecomputeNone(s: Store)
    ensures Recompute(s, {}) == s
  {
    assert Recompute(s, {}).rows == s.rows;
  }

  /** A second decay at the same instant changes nothing. */
  lemma DecayTwice(s: Store, now: int, st: DecaySettings)
    ensures ApplyDecay(ApplyDecay(s, now, st), now, st) == ApplyDecay(s, now, st)
  {
    if st.enabled {
      var t := ApplyDecay(s, now, st);
      forall p | p in t.sources
        ensures DecayedConfidence(t.sources[p], now, st) == t.sources[p].confidence
      {
      }
      assert DecaySources(t, now, st) == t.sources;
      assert DecayAffected(t, now, st) == {};
      RecomputeNone(t);
    }
  }

  lemma WeeksGrow(src: Source, t1: int, t2: int, st: DecaySettings)
    requires t1 <= t2 && st.rate >= 0
    ensures WeeksStale(src, t1, st) <= WeeksStale(src, t2, st)
    ensures WeeksStale(src, t1, st) * st.rate <= WeeksStale(src, t2, st) * st.rate
  {
    var d := WeeksStale(src, t2, st) - WeeksStale(src, t1, st);
    assert d * st.rate >= 0;
  }

  /**
   * The decay rule in calendar terms. A source last seen at most `days` days ago keeps its confidence, and so does one whose native
   * confidence is not above the floor. Any other loses `rate` for each full week beyond the `days` days, for one week at least,
   * counted from its native confidence and down to the floor.
   */
  lemma DecayRule(src: Source, now: int, st: DecaySettings, weeks: int, rest: int)
    requires st.days >= 0 && weeks >= 0 && 0 <= rest < 7 * 86_400
    ensures now <= src.lastSeen + st.days * 86_400 ==> DecayedConfidence(src, now, st) == src.confidence
    ensures src.native <= st.floor ==> DecayedConfidence(src, now, st) == src.confidence
    ensures src.native > st.floor && now == src.lastSeen + (st.days + 7 * weeks) * 86_400 + rest && now > src.lastSeen + st.days * 86_400 ==>
      var lost := (if weeks == 0 then 1 else weeks) * st.rate;
      DecayedConfidence(src, now, st) == if src.native - lost < st.floor then st.floor else src.native - lost
  {
    if now == src.lastSeen + (st.days + 7 * weeks) * 86_400 + rest {
      WeeksOf(st.days, weeks, rest);
      assert now - src.lastSeen == (st.days + 7 * weeks) * DAY + rest;
    }
  }

  lemma WeeksOf(days: int, weeks: int, rest: int)
    requires 0 <= rest < 7 * DAY
    ensures (((days + 7 * weeks) * DAY + rest) / DAY - days) / 7 == weeks
  {
    var extra := rest / DAY;
    assert 0 <= extra < 7;
    assert ((days + 7 * weeks) * DAY + rest) / DAY == days + 7 * weeks + extra;
    assert (7 * weeks + extra) / 7 == weeks;
  }

  /** No room to rise: decay never touches the source, or it stands at least where the first week of decay would put it. */
  predicate CannotRise(src: Source, st: DecaySettings) {
    src.native <= st.floor || src.confidence >= Max(st.floor, src.native - st.rate)
  }

  /** One second after the source went stale; a single week is counted. */
  function FirstStale(src: Source, st: DecaySettings): int {
    src.lastSeen + st.days * DAY + 1
  }

  lemma FirstStaleDecay(src: Source, st: DecaySettings)
    requires src.native > st.floor
    ensures IsStale(src, FirstStale(src, st), st)
    ensures DecayedConfidence(src, FirstStale(src, st), st) == Max(st.floor, src.native - st.rate)
  {
    assert WeeksStale(src, FirstStale(src, st), st) == 1;
  }

  lemma AtLeastOneWeek(src: Source, now: int, st: DecaySettings)
    requires IsStale(src, now, st) && st.rate >= 0
    ensures DecayedConfidence(src, now, st) <= Max(st.floor, src.native - st.rate)
  {
    var more := WeeksStale(src, now, st) - 1;
    assert more * st.rate >= 0;
  }

  /** At no time does decay raise a source's confidence exactly when the source has no room to rise. */
  lemma DecayNeverRaisesIff(src: Source, st: DecaySettings)
    requires SourceOk(src) && st.enabled && SafeSettings(st)
    ensures (forall now :: DecayedConfidence(src, now, st) <= src.confidence) <==> CannotRise(src, st)
  {
    if CannotRise(src, st) {
      forall now
        ensures DecayedConfidence(src, now, st) <= src.confidence
      {
        if IsStale(src, now, st) {
          AtLeastOneWeek(src, now, st);
        }
      }
    } else {
      FirstStaleDecay(src, st);
    }
  }

  lemma LaterDecays(src: Source, t1: int, t2: int, st: DecaySettings)
    requires SourceOk(src) && st.enabled && SafeSettings(st) && t1 <= t2 && IsStale(src, t1, st)
    ensures DecayedConfidence(src, t2, st) <= DecayedConfidence(src, t1, st)
  {
    WeeksGrow(src, t1, t2, st);
  }

  /** Between sightings, no decay after the one at t1 raises the source exactly when it was stale then or has no room to rise. */
  lemma DecayNeverRaises(src: Source, t1: int, st: DecaySettings)
    requires SourceOk(src) && st.enabled && SafeSettings(st)
    ensures var once := src.(confidence := DecayedConfidence(src, t1, st));
      (forall t2 :: t1 <= t2 ==> DecayedConfidence(once, t2, st) <= once.confidence) <==> IsStale(src, t1, st) || CannotRise(src, st)
  {
    var once := src.(confidence := DecayedConfidence(src, t1, st));
    if IsStale(src, t1, st) {
      forall t2 | t1 <= t2
        ensures DecayedConfidence(once, t2, st) <= once.confidence
      {
        LaterDecays(src, t1, t2, st);
        assert IsStale(once, t2, st) && DecayedConfidence(once, t2, st) == DecayedConfidence(src, t2, st);
      }
    } else {
      assert once == src;
      DecayNeverRaisesIff(src, st);
      if !CannotRise(src, st) {
        FirstStaleDecay(src, st);
        assert t1 <= FirstStale(src, st);
      }
    }
  }

  /** A lower re-sighting keeps the old native confidence, so the next decay raises the stored one from 40 to 85. */
  lemma ResightingThenDecayRaises()
    ensures var st := DecaySettings(true, 30, 5, 10);
      var seenAgain := MergeSource(Source(40, 90, 0, 0), Sighting(30, 0, 400 * DAY));
      && seenAgain.confidence == 40 && !CannotRise(seenAgain, st)
      && DecayedConfidence(seenAgain, 431 * DAY, st) == 85
  {
    assert (31 * DAY) / DAY == 31;
  }

  // ── How many scores a decay changes ───────────────────────────────────

  /** The observables whose score differs between two states. */
  function ScoresChanged(s: Store, t: Store): set<Key> {
    set k | k in s.rows && k in t.rows && t.rows[k].score != s.rows[k].score
  }

  /** A feed of the observable decays to this confidence. */
  predicate DecaysTo(s: Store, p: SourceKey, now: int, st: DecaySettings, x: int) {
    p in s.sources && DecayedConfidence(s.sources[p], now, st) == x
  }

  /** After the decay an input still equals the score: a manual one, an analyst's, or a feed's that ends up there. */
  ghost predicate StillHeld(s: Store, k: Key, now: int, st: DecaySettings)
    requires k in s.rows
  {
    var score := s.rows[k].score;
    || s.rows[k].manual == Some(score) || score in LinkScores(s, k)
    || exists p: SourceKey :: p.obs == k && DecaysTo(s, p, now, st, score)
  }

  /** A feed ends up above the score. */
  ghost predicate DecaysAbove(s: Store, k: Key, now: int, st: DecaySettings)
    requires k in s.rows
  {
    exists p :: p in s.sources && p.obs == k && DecayedConfidence(s.sources[p], now, st) > s.rows[k].score
  }

  /** The decay of a source shows in the observable's score: no pin, and nothing holds the score where it was. */
  ghost predicate DecayShows(s: Store, k: Key, now: int, st: DecaySettings)
    requires k in s.rows
  {
    s.rows[k].override_.None? && (!StillHeld(s, k, now, st) || DecaysAbove(s, k, now, st))
  }

  ghost predicate EveryDecayShows(s: Store, now: int, st: DecaySettings) {
    forall k :: k in DecayAffected(s, now, st) && k in s.rows ==> DecayShows(s, k, now, st)
  }

  lemma DecayedInputs(s: Store, k: Key, now: int, st: DecaySettings)
    requires k in s.rows
    ensures var t := s.(sources := DecaySources(s, now, st));
      && Inputs(t, k) == FeedScores(t, k) + ManualScores(s.rows[k]) + LinkScores(s, k)
      && forall x :: x in FeedScores(t, k) <==> exists p: SourceKey :: p.obs == k && DecaysTo(s, p, now, st, x)
  {
    var t := s.(sources := DecaySources(s, now, st));
    assert LinkScores(t, k) == LinkScores(s, k);
    forall x
      ensures x in FeedScores(t, k) <==> exists p: SourceKey :: p.obs == k && DecaysTo(s, p, now, st, x)
    {
      if p: SourceKey :| p.obs == k && DecaysTo(s, p, now, st, x) {
        assert p in t.sources && t.sources[p].confidence == x;
      }
      if x in FeedScores(t, k) {
        var p :| p in t.sources && p.obs == k && t.sources[p].confidence == x;
        assert DecaysTo(s, p, now, st, x);
      }
    }
  }

  lemma AboveIff(s: Store, k: Key, now: int, st: DecaySettings)
    requires Valid(s) && k in s.rows && s.rows[k].override_.None?
    ensures DecaysAbove(s, k, now, st) <==>
      exists x :: x in Inputs(s.(sources := DecaySources(s, now, st)), k) && x > s.rows[k].score
  {
    var t := s.(sources := DecaySources(s, now, st));
    DecayedInputs(s, k, now, st);
    assert ScoreOk(s, k) && forall x :: x in ManualScores(s.rows[k]) + LinkScores(s, k) ==> x in Inputs(s, k);
    if DecaysAbove(s, k, now, st) {
      var p :| p in s.sources && p.obs == k && DecayedConfidence(s.sources[p], now, st) > s.rows[k].score;
      assert DecaysTo(s, p, now, st, DecayedConfidence(s.sources[p], now, st));
      assert DecayedConfidence(s.sources[p], now, st) in Inputs(t, k);
    }
    if x :| x in Inputs(t, k) && x > s.rows[k].score {
      assert x in FeedScores(t, k);
      var p: SourceKey :| p.obs == k && DecaysTo(s, p, now, st, x);
    }
  }

  lemma HeldIffMax(s: Store, k: Key, now: int, st: DecaySettings)
    requires Valid(s) && k in s.rows && s.rows[k].override_.None?
    ensures IsMax(s.rows[k].score, Inputs(s.(sources := DecaySources(s, now, st)), k)) <==> !DecayShows(s, k, now, st)
  {
    DecayedInputs(s, k, now, st);
    AboveIff(s, k, now, st);
    assert s.rows[k].score in ManualScores(s.rows[k]) <==> s.rows[k].manual == Some(s.rows[k].score);
  }

  /** A decayed source moves its observable's score exactly when the decay shows. */
  lemma ScoreChangesIff(s: Store, now: int, st: DecaySettings, k: Key)
    requires Valid(s) && st.enabled && k in DecayAffected(s, now, st)
    ensures k in s.rows && (ApplyDecay(s, now, st).rows[k].score != s.rows[k].score <==> DecayShows(s, k, now, st))
  {
    var t := s.(sources := DecaySources(s, now, st));
    var p :| p in s.sources && DecayedConfidence(s.sources[p], now, st) != s.sources[p].confidence && p.obs == k;
    assert t.sources[p].confidence in Inputs(t, k);
    RecomputedScoreMeaning(t, k);
    assert ScoreOk(s, k);
    if s.rows[k].override_.None? {
      HeldIffMax(s, k, now, st);
    }
  }

  lemma SubsetCount(a: set<Key>, b: set<Key>)
    requires a <= b
    ensures |a| <= |b| && (|a| == |b| <==> a == b)
  {
    assert b == a + (b - a);
  }

  /** The number of observables with a changed source is the number of changed scores exactly when every such change shows;
      it is never smaller. */
  lemma DecayCountExact(s: Store, now: int, st: DecaySettings)
    requires Valid(s) && st.enabled
    ensures var changed := ScoresChanged(s, ApplyDecay(s, now, st));
      && changed <= DecayAffected(s, now, st) <= s.rows.Keys && |changed| <= |DecayAffected(s, now, st)|
      && (|DecayAffected(s, now, st)| == |changed| <==> EveryDecayShows(s, now, st))
  {
    var changed, affected := ScoresChanged(s, ApplyDecay(s, now, st)), DecayAffected(s, now, st);
    forall k | k in affected
      ensures k in s.rows && (k in changed <==> DecayShows(s, k, now, st))
    {
      ScoreChangesIff(s, now, st, k);
    }
    SubsetCount(changed, affected);
  }

  /** An observable held at 90 by a manual confidence whose feed decays from 80. */
  function HeldStore(k: Key): Store {
    Store(map[k := Row(90, Some(90), None, 0, Some(0))], map[SourceKey(k, 0) := Source(80, 80, 0, 0)], map[], map[0 := 50], {})
  }

  lemma HeldStoreValid(k: Key)
    ensures Valid(HeldStore(k))
  {
    var s := HeldStore(k);
    assert FeedScores(s, k) == {80} by {
      assert SourceKey(k, 0) in s.sources;
    }
    assert LinkScores(s, k) == {};
  }

  /** The decay counts this observable, and its score stays 90. */
  lemma DecayCountsUnchanged(k: Key)
    ensures var s, st := HeldStore(k), DecaySettings(true, 30, 5, 10);
      && Valid(s) && DecayAffected(s, 31 * DAY, st) == {k} && ScoresChanged(s, ApplyDecay(s, 31 * DAY, st)) == {}
  {
    var s, st, p := HeldStore(k), DecaySettings(true, 30, 5, 10), SourceKey(k, 0);
    HeldStoreValid(k);
    assert (31 * DAY) / DAY == 31;
    assert p in s.sources && DecayedConfidence(s.sources[p], 31 * DAY, st) == 75;
    ScoreChangesIff(s, 31 * DAY, st, k);
    assert StillHeld(s, k, 31 * DAY, st) && !DecaysAbove(s, k, 31 * DAY, st);
  }

  // ── The backfill of migration 008 ─────────────────────────────────────

  function OrMinusOne(x: Option<int>): int {
    if x.Some? then x.value else -1
  }

  predicate Unexplained(s: Store, k: Key)
    requires k in s.rows
  {
    s.rows[k].score > OrMinusOne(MaxOf(FeedScores(s, k))) && s.rows[k].score > OrMinusOne(MaxOf(LinkScores(s, k)))
  }

  /** A score that neither feeds nor reports explain becomes the manual floor. */
  function Backfill(s: Store): Store {
    s.(rows := map k | k in s.rows :: if Unexplained(s, k) then s.rows[k].(manual := Some(s.rows[k].score)) else s.rows[k])
  }

  /** Before the migration no row had a manual confidence or an override. */
  ghost predicate BeforeBackfill(s: Store) {
    forall k :: k in s.rows ==> s.rows[k].manual.None? && s.rows[k].override_.None?
  }

  /** The first recompute gives the larger of the old score and its inputs: it lowers no score. */
  lemma BackfillLossless(s: Store, k: Key)
    requires BeforeBackfill(s) && k in s.rows && s.rows[k].score >= 0
    ensures RecomputedScore(Backfill(s), k) >= s.rows[k].score
    ensures RecomputedScore(Backfill(s), k) == s.rows[k].score <==> forall x :: x in Inputs(s, k) ==> x <= s.rows[k].score
    ensures RecomputedScore(Backfill(s), k) in Inputs(s, k) + {s.rows[k].score}
  {
    var t := Backfill(s);
    assert FeedScores(t, k) == FeedScores(s, k) && LinkScores(t, k) == LinkScores(s, k);
    RecomputedScoreMeaning(t, k);
    var score := s.rows[k].score;
    assert Inputs(t, k) == Inputs(s, k) + (if Unexplained(s, k) then {score} else {});
    if !Unexplained(s, k) {
      var feed, link := MaxOf(FeedScores(s, k)), MaxOf(LinkScores(s, k));
      assert (feed.Some? && feed.value >= score && feed.value in Inputs(s, k)) ||
        (link.Some? && link.value >= score && link.value in Inputs(s, k));
    }
  }

  lemma BackfillInputs(s: Store, k: Key)
    requires BeforeBackfill(s) && k in s.rows
    ensures Inputs(Backfill(s), k) == Inputs(s, k) + (if Unexplained(s, k) then {s.rows[k].score} else {})
  {
    assert FeedScores(Backfill(s), k) == FeedScores(s, k) && LinkScores(Backfill(s), k) == LinkScores(s, k);
  }

  lemma BackfillRanged(s: Store)
    requires Ranged(s)
    ensures Ranged(Backfill(s))
  {
  }

  lemma UnexplainedIff(s: Store, k: Key)
    requires Ranged(s) && BeforeBackfill(s) && k in s.rows
    ensures Unexplained(s, k) <==> forall x :: x in Inputs(s, k) ==> x < s.rows[k].score
  {
    var feed, link := MaxOf(FeedScores(s, k)), MaxOf(LinkScores(s, k));
    assert Inputs(s, k) == FeedScores(s, k) + LinkScores(s, k);
    assert feed.Some? ==> feed.value in Inputs(s, k);
    assert link.Some? ==> link.value in Inputs(s, k);
  }

  lemma BackfillScoreOkIff(s: Store, k: Key)
    requires Ranged(s) && BeforeBackfill(s) && k in s.rows
    ensures ScoreOk(Backfill(s), k) <==> forall x :: x in Inputs(s, k) ==> x <= s.rows[k].score
  {
    BackfillInputs(s, k);
    UnexplainedIff(s, k);
    MaxWithScore(s.rows[k].score, Inputs(s, k), Unexplained(s, k), Inputs(Backfill(s), k));
  }

  lemma MaxWithScore(score: int, xs: set<int>, unexplained: bool, now: set<int>)
    requires unexplained <==> forall x :: x in xs ==> x < score
    requires now == xs + if unexplained then {score} else {}
    ensures (now != {} ==> IsMax(score, now)) <==> forall x :: x in xs ==> x <= score
  {
  }

  /** The backfill alone makes the stored scores right exactly where no input was above the score. */
  lemma BackfillValidIff(s: Store)
    requires Ranged(s) && BeforeBackfill(s)
    ensures Valid(Backfill(s)) <==> forall k, x :: k in s.rows && x in Inputs(s, k) ==> x <= s.rows[k].score
  {
    BackfillRanged(s);
    forall k | k in s.rows
      ensures ScoreOk(Backfill(s), k) <==> forall x :: x in Inputs(s, k) ==> x <= s.rows[k].score
    {
      BackfillScoreOkIff(s, k);
    }
  }

  /** The backfill and a recompute of every row make any old store valid, so every later run keeps the scores right. */
  lemma UpgradedRunsKeepScores(s: Store, ops: seq<Op>)
    requires Ranged(s) && BeforeBackfill(s) && forall i :: 0 <= i < |ops| ==> Accepted(ops[i])
    ensures Valid(Recompute(Backfill(s), s.rows.Keys)) && Valid(Run(Recompute(Backfill(s), s.rows.Keys), ops))
  {
    BackfillRanged(s);
    RecomputeRepairs(Backfill(s), s.rows.Keys);
    EveryRunKeepsScores(Recompute(Backfill(s), s.rows.Keys), ops);
  }
}
