/** The tables behind an observable's confidence score, and how each score is recomputed from its inputs. */
module ScoreState {
  import opened Wrappers
  import opened Observables

  /** A NULL last-seen time comes only from rows that older versions wrote. */
  datatype Row = Row(score: int, manual: Option<int>, override_: Option<int>, firstSeen: int, lastSeen: Option<int>)

  datatype SourceKey = SourceKey(obs: Key, feed: nat)

  datatype Source = Source(confidence: int, native: int, firstSeen: int, lastSeen: int)

  datatype LinkKey = LinkKey(report: nat, obs: Key)

  /** A report link; importing a candidate attributes it to an analyst with a confidence. */
  datatype Link = Link(imported: bool, analyst: Option<int>)

  /** feeds holds each feed's default confidence. */
  datatype Store = Store(
    rows: map<Key, Row>, sources: map<SourceKey, Source>, links: map<LinkKey, Link>, feeds: map<nat, int>, reports: set<nat>)

  const EMPTY := Store(map[], map[], map[], map[], {})

  // ── Inputs and the recomputed score ───────────────────────────────────

  function FeedScores(s: Store, k: Key): set<int> {
    set p | p in s.sources && p.obs == k :: s.sources[p].confidence
  }

  function LinkScores(s: Store, k: Key): set<int> {
    set p | p in s.links && p.obs == k && s.links[p].analyst.Some? :: s.links[p].analyst.value
  }

  function ManualScores(r: Row): set<int> {
    if r.manual.Some? then {r.manual.value} else {}
  }

  /** Every feed, manual and analyst input of an observable. */
  function Inputs(s: Store, k: Key): set<int>
    requires k in s.rows
  {
    FeedScores(s, k) + ManualScores(s.rows[k]) + LinkScores(s, k)
  }

  /** An input is what a feed's source says, what the analyst typed in, or what a report's import gave. */
  lemma InputsExact(s: Store, k: Key, x: int)
    requires k in s.rows
    ensures x in Inputs(s, k) <==>
      || (exists feed :: SourceKey(k, feed) in s.sources && s.sources[SourceKey(k, feed)].confidence == x)
      || s.rows[k].manual == Some(x)
      || (exists report :: LinkKey(report, k) in s.links && s.links[LinkKey(report, k)].analyst == Some(x))
  {
    if p :| p in s.sources && p.obs == k && s.sources[p].confidence == x {
      assert p == SourceKey(k, p.feed);
    }
    if p :| p in s.links && p.obs == k && s.links[p].analyst == Some(x) {
      assert p == LinkKey(p.report, k);
    }
  }

  predicate IsMax(x: int, xs: set<int>) {
    x in xs && forall y :: y in xs ==> y <= x
  }

  lemma {:induction false} MaxExists(xs: set<int>, x: int)
    requires x in xs
    ensures exists m :: IsMax(m, xs)
    decreases |xs|
  {
    var rest := xs - {x};
    assert forall y :: y in xs ==> y == x || y in rest;
    if y :| y in rest {
      MaxExists(rest, y);
      var m :| IsMax(m, rest);
      assert IsMax(if m < x then x else m, xs);
    } else {
      assert IsMax(x, xs);
    }
  }

  /** SQL MAX: NULL over no rows. */
  function MaxOf(xs: set<int>): (m: Option<int>)
    ensures m.None? <==> xs == {}
    ensures m.Some? ==> IsMax(m.value, xs)
  {
    if exists x :: x in xs then
      ghost var x :| x in xs;
      MaxExists(xs, x);
      var m :| IsMax(m, xs);
      Some(m)
    else None
  }

  /** SQL GREATEST: NULL arguments are ignored. */
  function Greatest(a: Option<int>, b: Option<int>): Option<int> {
    if a.None? then b else if b.None? then a else if a.value < b.value then b else a
  }

  function RecomputedScore(s: Store, k: Key): int
    requires k in s.rows
  {
    var r := s.rows[k];
    if r.override_.Some? then r.override_.value
    else
      var floor := Greatest(Greatest(MaxOf(FeedScores(s, k)), r.manual), MaxOf(LinkScores(s, k)));
      if floor.Some? then floor.value else r.score
  }

  /** recompute_effective_confidence on a set of observables. */
  function Recompute(s: Store, ids: set<Key>): Store {
    s.(rows := map k | k in s.rows :: if k in ids then s.rows[k].(score := RecomputedScore(s, k)) else s.rows[k])
  }

  /** The three-way GREATEST of maxima is the maximum of all inputs. */
  lemma FloorIsMax(s: Store, k: Key)
    requires k in s.rows
    ensures var floor := Greatest(Greatest(MaxOf(FeedScores(s, k)), s.rows[k].manual), MaxOf(LinkScores(s, k)));
      && (floor.None? <==> Inputs(s, k) == {})
      && (floor.Some? ==> IsMax(floor.value, Inputs(s, k)))
  {
  }

  /** The new score is the override, else the maximum input, else what it was. */
  lemma RecomputedScoreMeaning(s: Store, k: Key)
    requires k in s.rows
    ensures s.rows[k].override_.Some? ==> RecomputedScore(s, k) == s.rows[k].override_.value
    ensures s.rows[k].override_.None? && Inputs(s, k) != {} ==> IsMax(RecomputedScore(s, k), Inputs(s, k))
    ensures s.rows[k].override_.None? && Inputs(s, k) == {} ==> RecomputedScore(s, k) == s.rows[k].score
  {
    FloorIsMax(s, k);
  }

  lemma RecomputeKeepsInputs(s: Store, ids: set<Key>, k: Key)
    requires k in s.rows
    ensures Inputs(Recompute(s, ids), k) == Inputs(s, k)
    ensures RecomputedScore(Recompute(s, ids), k) == RecomputedScore(s, k)
  {
    assert FeedScores(Recompute(s, ids), k) == FeedScores(s, k);
    assert LinkScores(Recompute(s, ids), k) == LinkScores(s, k);
  }

  /** Recomputing in chunks is recomputing at once, and recomputing twice changes nothing. */
  lemma RecomputeChunks(s: Store, a: set<Key>, b: set<Key>)
    ensures Recompute(Recompute(s, a), b) == Recompute(s, a + b)
  {
    forall k | k in s.rows
      ensures Recompute(Recompute(s, a), b).rows[k] == Recompute(s, a + b).rows[k]
    {
      RecomputeKeepsInputs(s, a, k);
    }
    assert Recompute(Recompute(s, a), b).rows == Recompute(s, a + b).rows;
  }

  // ── The invariant ─────────────────────────────────────────────────────

  predicate InRange(x: int) {
    0 <= x <= 100
  }

  predicate RowRanges(r: Row) {
    && InRange(r.score)
    && (r.manual.Some? ==> InRange(r.manual.value))
    && (r.override_.Some? ==> InRange(r.override_.value))
  }

  predicate SourceOk(src: Source) {
    0 <= src.confidence <= src.native <= 100
  }

  predicate LinkOk(l: Link) {
    (l.analyst.Some? ==> InRange(l.analyst.value)) && (!l.imported ==> l.analyst.None?)
  }

  /** The stored score is the override, else the maximum input if there is one. */
  ghost predicate ScoreOk(s: Store, k: Key)
    requires k in s.rows
  {
    var r := s.rows[k];
    && (r.override_.Some? ==> r.score == r.override_.value)
    && (r.override_.None? && Inputs(s, k) != {} ==> IsMax(r.score, Inputs(s, k)))
  }

  /** Ranges, and foreign keys. */
  ghost predicate Ranged(s: Store) {
    && (forall k :: k in s.rows ==> RowRanges(s.rows[k]))
    && (forall p :: p in s.sources ==> SourceOk(s.sources[p]) && p.obs in s.rows && p.feed in s.feeds)
    && (forall p :: p in s.links ==> LinkOk(s.links[p]) && p.obs in s.rows && p.report in s.reports)
    && (forall f :: f in s.feeds ==> InRange(s.feeds[f]))
  }

  ghost predicate Valid(s: Store) {
    Ranged(s) && forall k :: k in s.rows ==> ScoreOk(s, k)
  }

  lemma InputsInRange(s: Store, k: Key)
    requires Ranged(s) && k in s.rows
    ensures forall x :: x in Inputs(s, k) ==> InRange(x)
  {
  }

  /** Recomputing repairs the chosen scores and leaves the others as they were. */
  lemma RecomputeRepairs(s: Store, ids: set<Key>)
    requires Ranged(s) && forall k :: k in s.rows && k !in ids ==> ScoreOk(s, k)
    ensures Valid(Recompute(s, ids))
  {
    var t := Recompute(s, ids);
    forall k | k in t.rows
      ensures RowRanges(t.rows[k]) && ScoreOk(t, k)
    {
      RecomputeKeepsInputs(s, ids, k);
      RecomputedScoreMeaning(s, k);
      InputsInRange(s, k);
    }
  }

  /** The two states show the same source scores and the same link scores for k. */
  ghost predicate SameSources(s: Store, t: Store, k: Key) {
    forall p: SourceKey :: p.obs == k ==> ConfidenceOf(s, p) == ConfidenceOf(t, p)
  }

  function ConfidenceOf(s: Store, p: SourceKey): Option<int> {
    if p in s.sources then Some(s.sources[p].confidence) else None
  }

  function AnalystOf(s: Store, p: LinkKey): Option<int> {
    if p in s.links then s.links[p].analyst else None
  }

  ghost predicate SameLinks(s: Store, t: Store, k: Key) {
    forall p: LinkKey :: p.obs == k ==> AnalystOf(s, p) == AnalystOf(t, p)
  }

  lemma SameInputs(s: Store, t: Store, k: Key)
    requires k in s.rows && k in t.rows && s.rows[k].manual == t.rows[k].manual
    requires SameSources(s, t, k) && SameLinks(s, t, k)
    ensures Inputs(s, k) == Inputs(t, k)
  {
    SubsetFeeds(s, t, k);
    SubsetFeeds(t, s, k);
    SubsetLinks(s, t, k);
    SubsetLinks(t, s, k);
  }

  lemma SubsetFeeds(s: Store, t: Store, k: Key)
    requires SameSources(s, t, k)
    ensures FeedScores(s, k) <= FeedScores(t, k)
  {
    forall x | x in FeedScores(s, k)
      ensures x in FeedScores(t, k)
    {
      var p :| p in s.sources && p.obs == k && s.sources[p].confidence == x;
      assert ConfidenceOf(t, p) == Some(x);
    }
  }

  lemma SubsetLinks(s: Store, t: Store, k: Key)
    requires SameLinks(s, t, k)
    ensures LinkScores(s, k) <= LinkScores(t, k)
  {
    forall x | x in LinkScores(s, k)
      ensures x in LinkScores(t, k)
    {
      var p :| p in s.links && p.obs == k && s.links[p].analyst == Some(x);
      assert AnalystOf(t, p) == Some(x);
    }
  }

  /** Outside ids, nothing that decides the score of k changed. */
  ghost predicate Untouched(s: Store, t: Store, k: Key) {
    && k in s.rows && k in t.rows
    && s.rows[k].score == t.rows[k].score && s.rows[k].override_ == t.rows[k].override_ && s.rows[k].manual == t.rows[k].manual
    && SameSources(s, t, k) && SameLinks(s, t, k)
  }

  /** An operation that recomputes every observable it touches keeps the invariant. */
  lemma RecomputeTouched(s: Store, t: Store, ids: set<Key>)
    requires Valid(s) && Ranged(t)
    requires forall k :: k in t.rows && k !in ids ==> Untouched(s, t, k)
    ensures Valid(Recompute(t, ids))
  {
    forall k | k in t.rows && k !in ids
      ensures ScoreOk(t, k)
    {
      SameInputs(s, t, k);
    }
    RecomputeRepairs(t, ids);
  }
}
