/** The services that write scores, as methods over the tables, each equal to its step of the state machine. */
module ScoreDatabase {
  import opened Wrappers
  import opened Observables
  import opened ScoreState
  import opened ScoreOps

  const RECOMPUTE_BATCH_SIZE := 1000

  function Members<T>(s: seq<T>): set<T> {
    set x | x in s
  }

  datatype FeedRow = FeedRow(id: nat, name: string, enabled: bool, referenced: bool)

  datatype FeedDeletion = Deleted | Preconfigured | InUse

  class Database {
    var rows: map<Key, Row>
    var sources: map<SourceKey, Source>
    var links: map<LinkKey, Link>
    var feeds: map<nat, int>
    var reports: set<nat>

    function State(): Store
      reads this
    {
      Store(rows, sources, links, feeds, reports)
    }

    /** The UPDATE statements, one per chunk of ids, in whatever order the set lists them. */
    method RecomputeScores(ids: set<Key>)
      modifies `rows
      ensures State() == Recompute(old(State()), ids)
    {
      ghost var s := State();
      var list := ListOf(ids);
      RecomputeNone(s);
      var start := 0;
      assert Members(list[..0]) == {};
      while start < |list|
        invariant start <= |list| && State() == Recompute(s, Members(list[..start]))
      {
        var stop := if start + RECOMPUTE_BATCH_SIZE <= |list| then start + RECOMPUTE_BATCH_SIZE else |list|;
        var chunk := Members(list[start..stop]);
        RecomputeChunks(s, Members(list[..start]), chunk);
        MembersSplit(list, start, stop);
        rows := Recompute(State(), chunk).rows;
        start := stop;
      }
      assert list[..start] == list;
    }

    /** A custom observable: the manual confidence only rises, and the score follows. */
    method Create(k: Key, confidence: int, now: int)
      requires Valid(State()) && InRange(confidence)
      modifies `rows
      ensures State() == CreateObservable(old(State()), k, confidence, now) && Valid(State())
      ensures OnlyRow(old(State()), State(), k)
      ensures k !in old(rows) ==> IsNewRow(rows[k], confidence, now)
      ensures k in old(rows) ==> IsResubmitted(old(State()), k, rows[k], confidence, now)
    {
      CreateKeeps(State(), k, confidence, now);
      CreateMeans(State(), k, confidence, now);
      if k in rows {
        var r := rows[k];
        rows := rows[k := r.(manual := Greatest(r.manual, Some(confidence)), lastSeen := Greatest(r.lastSeen, Some(now)))];
      } else {
        rows := rows[k := Row(confidence, Some(confidence), None, now, Some(now))];
      }
      RecomputeScores({k});
    }

    /** Pins the effective confidence, or clears the pin. */
    method Override(k: Key, pin: Option<int>) returns (found: bool)
      requires Valid(State()) && (pin.Some? ==> InRange(pin.value))
      modifies `rows
      ensures found == (k in old(rows)) && State() == SetOverride(old(State()), k, pin) && Valid(State())
      ensures !found ==> State() == old(State())
      ensures found ==> OnlyRow(old(State()), State(), k) && rows[k] == old(rows[k]).(override_ := pin, score := rows[k].score)
      ensures found && pin.Some? ==> k in rows && rows[k].score == pin.value
      ensures found && pin.None? && Inputs(old(State()), k) != {} ==> k in rows && IsMax(rows[k].score, Inputs(old(State()), k))
      ensures found && pin.None? && Inputs(old(State()), k) == {} ==> k in rows && rows[k].score == old(rows[k].score)
    {
      OverrideKeeps(State(), k, pin);
      if k !in rows {
        return false;
      }
      OverrideMeans(State(), k, pin);
      rows := rows[k := rows[k].(override_ := pin)];
      RecomputeScores({k});
      found := true;
    }

    method LinkTo(report: nat, k: Key) returns (found: bool, linked: bool)
      requires Valid(State())
      modifies `links
      ensures found == (report in reports && k in rows) && linked == (found && LinkKey(report, k) !in old(links))
      ensures State() == LinkObservable(old(State()), report, k) && Valid(State())
      ensures links == if linked then old(links)[LinkKey(report, k) := Link(false, None)] else old(links)
    {
      LinkKeeps(State(), report, k);
      if report !in reports || k !in rows {
        return false, false;
      }
      if LinkKey(report, k) in links {
        return true, false;
      }
      links := links[LinkKey(report, k) := Link(false, None)];
      return true, true;
    }

    method Unlink(report: nat, k: Key) returns (removed: bool)
      requires Valid(State())
      modifies `rows, `links
      ensures removed == (report in reports && LinkKey(report, k) in old(links))
      ensures State() == UnlinkObservable(old(State()), report, k) && Valid(State())
      ensures links == if removed then old(links) - {LinkKey(report, k)} else old(links)
      ensures OnlyScores(old(State()), State(), if removed then {k} else {})
    {
      UnlinkKeeps(State(), report, k);
      if report !in reports || LinkKey(report, k) !in links {
        return false;
      }
      links := links - {LinkKey(report, k)};
      RecomputeScores({k});
      removed := true;
    }

    method RemoveReport(report: nat) returns (removed: bool)
      requires Valid(State())
      modifies `rows, `links, `reports
      ensures removed == (report in old(reports))
      ensures State() == DeleteReport(old(State()), report) && Valid(State())
      ensures reports == old(reports) - {report} && forall p: LinkKey :: p in links <==> p in old(links) && (p.report != report || !removed)
      ensures forall p :: p in links ==> links[p] == old(links)[p]
      ensures OnlyScores(old(State()), State(), set j | removed && j in old(rows) && LinkKey(report, j) in old(links))
    {
      DeleteReportKeeps(State(), report);
      if report !in reports {
        return false;
      }
      DeleteReportMeans(State(), report);
      var linked := LinkedTo(State(), report);
      ghost var t := WithoutReport(State(), report);
      links := map p | p in links && p.report != report :: links[p];
      reports := reports - {report};
      assert State() == t;
      RecomputeScores(linked);
      removed := true;
    }

    /** Deletes a custom feed no export profile refers to; otherwise nothing changes. */
    method RemoveFeed(feed: nat, preconfigured: bool, referenced: bool) returns (r: FeedDeletion)
      requires Valid(State())
      modifies `rows, `sources, `feeds
      ensures r == if preconfigured then Preconfigured else if referenced then InUse else Deleted
      ensures State() == if r == Deleted then RemoveFeeds(old(State()), {feed}) else old(State())
      ensures Valid(State())
    {
      RemoveFeedsKeeps(State(), {feed});
      if preconfigured {
        return Preconfigured;
      }
      if referenced {
        return InUse;
      }
      var sourced := DropFeed(feed);
      RecomputeScores(sourced);
      r := Deleted;
    }

    /** The feed's sources and its row go; sourced lists the observables it had reported. */
    method DropFeed(feed: nat) returns (sourced: set<Key>)
      modifies `sources, `feeds
      ensures sourced == SourcedBy(old(State()), {feed}) && State() == WithoutFeeds(old(State()), {feed})
    {
      sourced := SourcedBy(State(), {feed});
      sources := map p | p in sources && p.feed != feed :: sources[p];
      feeds := feeds - {feed};
    }

    /**
     * One stale source at a time, in any order; the observables with a changed source are recomputed at the end, and
     * counted. The count is at least the number of changed scores, and that number exactly when every such change shows.
     */
    method DecayAll(now: int, st: DecaySettings) returns (changed: nat)
      requires Valid(State()) && SafeSettings(st)
      modifies `rows, `sources
      ensures State() == ApplyDecay(old(State()), now, st) && Valid(State())
      ensures changed == if st.enabled then |DecayAffected(old(State()), now, st)| else 0
      ensures |ScoresChanged(old(State()), State())| <= changed
      ensures changed == |ScoresChanged(old(State()), State())| <==> (st.enabled ==> EveryDecayShows(old(State()), now, st))
    {
      DecayKeeps(State(), now, st);
      if !st.enabled {
        assert ScoresChanged(State(), State()) == {};
        return 0;
      }
      DecayCountExact(State(), now, st);
      var affected := DecayStale(now, st);
      changed := |affected|;
      RecomputeScores(affected);
    }

    method DecayStale(now: int, st: DecaySettings) returns (affected: set<Key>)
      modifies `sources
      ensures sources == DecaySources(old(State()), now, st) && affected == DecayAffected(old(State()), now, st)
    {
      ghost var s := State();
      var stale := set p | p in sources && IsStale(sources[p], now, st);
      ghost var all := stale;
      affected := {};
      while stale != {}
        invariant stale <= all
        invariant PartlyDecayed(s, sources, affected, all - stale, now, st)
        decreases |stale|
      {
        var p :| p in stale;
        var changed := DecayOne(s, p, affected, all - stale, now, st);
        assert all - (stale - {p}) == (all - stale) + {p};
        affected := if changed then affected + {p.obs} else affected;
        stale := stale - {p};
      }
      assert all - stale == all;
      AllDecayed(s, sources, affected, all, now, st);
    }

    method DecayOne(
        ghost s: Store, p: SourceKey, ghost affected: set<Key>, ghost done: set<SourceKey>, now: int, st: DecaySettings)
      returns (changed: bool)
      requires PartlyDecayed(s, sources, affected, done, now, st)
      requires p in s.sources && p !in done && IsStale(s.sources[p], now, st)
      modifies `sources
      ensures PartlyDecayed(s, sources, if changed then affected + {p.obs} else affected, done + {p}, now, st)
    {
      DecayOneStep(s, sources, affected, done, now, st, p);
      var source := sources[p];
      var confidence := Max(st.floor, source.native - WeeksStale(source, now, st) * st.rate);
      changed := confidence != source.confidence;
      sources := sources[p := source.(confidence := confidence)];
    }

    /** Deprecated feeds that are disabled and unreferenced are removed, the others become custom; one recompute ends the loop. */
    method RemoveDeprecated(preconfigured: seq<FeedRow>, defaults: set<string>) returns (updated: nat, converted: set<nat>)
      requires Valid(State()) && DistinctIds(preconfigured)
      modifies `rows, `sources, `feeds
      ensures State() == RemoveFeeds(old(State()), RemovedIds(preconfigured, defaults)) && Valid(State())
      ensures converted == ConvertedIds(preconfigured, defaults)
      ensures updated == |RemovedIds(preconfigured, defaults)| + |converted|
    {
      RemoveFeedsKeeps(State(), RemovedIds(preconfigured, defaults));
      var affected;
      updated, converted, affected := RemoveListed(preconfigured, defaults);
      if updated > 0 {
        RecomputeScores(affected);
      } else {
        RecomputeNone(State());
      }
    }

    method RemoveListed(preconfigured: seq<FeedRow>, defaults: set<string>)
      returns (updated: nat, converted: set<nat>, affected: set<Key>)
      requires DistinctIds(preconfigured)
      modifies `sources, `feeds
      ensures Progress(old(State()), State(), preconfigured, defaults, affected, converted, updated)
    {
      ghost var s := State();
      affected, updated, converted := {}, 0, {};
      NothingRemoved(s);
      for i := 0 to |preconfigured|
        invariant Progress(s, State(), preconfigured[..i], defaults, affected, converted, updated)
      {
        var feed := preconfigured[i];
        ProgressStep(s, State(), preconfigured, i, defaults, affected, converted, updated);
        if feed.name !in defaults {
          if !feed.enabled && !feed.referenced {
            var sourced := DropFeed(feed.id);
            affected := affected + sourced;
          } else {
            converted := converted + {feed.id};
          }
          updated := updated + 1;
        }
      }
      assert preconfigured[..|preconfigured|] == preconfigured;
    }
  }

  // ── Lemmas about the loops ────────────────────────────────────────────

  method ListOf<T(==)>(xs: set<T>) returns (list: seq<T>)
    ensures Members(list) == xs && |list| == |xs|
  {
    var rest := xs;
    list := [];
    while rest != {}
      invariant Members(list) !! rest && Members(list) + rest == xs && |list| + |rest| == |xs|
      decreases |rest|
    {
      var x :| x in rest;
      list, rest := list + [x], rest - {x};
    }
  }

  lemma MembersSplit<T>(s: seq<T>, i: nat, j: nat)
    requires i <= j <= |s|
    ensures Members(s[..j]) == Members(s[..i]) + Members(s[i..j])
  {
    assert s[..j] == s[..i] + s[i..j];
  }

  /** The sources of done have decayed, and affected holds the observables of those that changed. */
  ghost predicate PartlyDecayed(
      s: Store, sources: map<SourceKey, Source>, affected: set<Key>, done: set<SourceKey>, now: int, st: DecaySettings)
  {
    && sources.Keys == s.sources.Keys
    && (forall p :: p in sources ==> sources[p] == PartlyDecayedSource(s, done, now, st, p))
    && (forall k :: k in affected <==> exists p :: ChangedBy(s, done, now, st, p) && p.obs == k)
  }

  ghost function PartlyDecayedSource(s: Store, done: set<SourceKey>, now: int, st: DecaySettings, p: SourceKey): Source
    requires p in s.sources
  {
    if p in done then s.sources[p].(confidence := DecayedConfidence(s.sources[p], now, st)) else s.sources[p]
  }

  ghost predicate ChangedBy(s: Store, done: set<SourceKey>, now: int, st: DecaySettings, p: SourceKey) {
    p in done && p in s.sources && DecayedConfidence(s.sources[p], now, st) != s.sources[p].confidence
  }

  lemma DecayOneStep(
      s: Store, sources: map<SourceKey, Source>, affected: set<Key>, done: set<SourceKey>, now: int, st: DecaySettings, p: SourceKey)
    requires PartlyDecayed(s, sources, affected, done, now, st)
    requires p in sources && p !in done && IsStale(s.sources[p], now, st)
    ensures sources[p] == s.sources[p]
    ensures var confidence := DecayedConfidence(s.sources[p], now, st);
      PartlyDecayed(s, sources[p := sources[p].(confidence := confidence)],
        if confidence != sources[p].confidence then affected + {p.obs} else affected, done + {p}, now, st)
  {
    forall q
      ensures ChangedBy(s, done + {p}, now, st, q) <==> ChangedBy(s, done, now, st, q) || (q == p && ChangedBy(s, {p}, now, st, p))
    {
    }
    assert ChangedBy(s, {p}, now, st, p) <==> ChangedBy(s, done + {p}, now, st, p);
  }

  lemma AllDecayed(
      s: Store, sources: map<SourceKey, Source>, affected: set<Key>, done: set<SourceKey>, now: int, st: DecaySettings)
    requires PartlyDecayed(s, sources, affected, done, now, st)
    requires forall p :: p in done <==> p in s.sources && IsStale(s.sources[p], now, st)
    ensures sources == DecaySources(s, now, st) && affected == DecayAffected(s, now, st)
  {
    forall k | k in affected
      ensures k in DecayAffected(s, now, st)
    {
      var p :| ChangedBy(s, done, now, st, p) && p.obs == k;
    }
    forall k | k in DecayAffected(s, now, st)
      ensures k in affected
    {
      var p :| p in s.sources && DecayedConfidence(s.sources[p], now, st) != s.sources[p].confidence && p.obs == k;
      assert ChangedBy(s, done, now, st, p);
    }
  }

  predicate IsRemoved(f: FeedRow, defaults: set<string>) {
    f.name !in defaults && !f.enabled && !f.referenced
  }

  predicate IsConverted(f: FeedRow, defaults: set<string>) {
    f.name !in defaults && (f.enabled || f.referenced)
  }

  function RemovedIds(preconfigured: seq<FeedRow>, defaults: set<string>): set<nat> {
    set f | f in preconfigured && IsRemoved(f, defaults) :: f.id
  }

  function ConvertedIds(preconfigured: seq<FeedRow>, defaults: set<string>): set<nat> {
    set f | f in preconfigured && IsConverted(f, defaults) :: f.id
  }

  /** A deprecated preconfigured feed goes when nobody uses it, and becomes a custom feed otherwise; the others stay as they are. */
  lemma DeprecatedMeans(feeds: seq<FeedRow>, defaults: set<string>, i: nat)
    requires DistinctIds(feeds) && i < |feeds|
    ensures feeds[i].id in RemovedIds(feeds, defaults) <==> feeds[i].name !in defaults && !feeds[i].enabled && !feeds[i].referenced
    ensures feeds[i].id in ConvertedIds(feeds, defaults) <==> feeds[i].name !in defaults && (feeds[i].enabled || feeds[i].referenced)
  {
    forall f | f in feeds && f.id == feeds[i].id
      ensures f == feeds[i]
    {
      var j :| 0 <= j < |feeds| && feeds[j] == f;
      assert i < j || j < i || i == j;
    }
  }

  lemma NothingRemoved(s: Store)
    ensures WithoutFeeds(s, {}) == s && SourcedBy(s, {}) == {}
  {
    assert WithoutFeeds(s, {}).sources == s.sources;
  }

  ghost predicate DistinctIds(feeds: seq<FeedRow>) {
    forall i, j :: 0 <= i < j < |feeds| ==> feeds[i].id != feeds[j].id
  }

  /** What the loop has done after these feeds. */
  ghost predicate Progress(
      s: Store, t: Store, feeds: seq<FeedRow>, defaults: set<string>, affected: set<Key>, converted: set<nat>, updated: nat)
  {
    var removed := RemovedIds(feeds, defaults);
    && t == WithoutFeeds(s, removed) && affected == SourcedBy(s, removed)
    && converted == ConvertedIds(feeds, defaults) && updated == |removed| + |converted|
  }

  lemma IdsStep(feeds: seq<FeedRow>, i: nat, defaults: set<string>)
    requires i < |feeds| && DistinctIds(feeds)
    ensures RemovedIds(feeds[..i + 1], defaults) ==
      RemovedIds(feeds[..i], defaults) + (if IsRemoved(feeds[i], defaults) then {feeds[i].id} else {})
    ensures ConvertedIds(feeds[..i + 1], defaults) ==
      ConvertedIds(feeds[..i], defaults) + (if IsConverted(feeds[i], defaults) then {feeds[i].id} else {})
    ensures feeds[i].id !in RemovedIds(feeds[..i], defaults) && feeds[i].id !in ConvertedIds(feeds[..i], defaults)
  {
    assert feeds[..i + 1] == feeds[..i] + [feeds[i]];
  }

  lemma ProgressStep(
      s: Store, t: Store, feeds: seq<FeedRow>, i: nat, defaults: set<string>, affected: set<Key>, converted: set<nat>, updated: nat)
    requires i < |feeds| && DistinctIds(feeds)
    requires Progress(s, t, feeds[..i], defaults, affected, converted, updated)
    ensures IsRemoved(feeds[i], defaults) ==>
      Progress(s, WithoutFeeds(t, {feeds[i].id}), feeds[..i + 1], defaults,
        affected + SourcedBy(t, {feeds[i].id}), converted, updated + 1)
    ensures IsConverted(feeds[i], defaults) ==>
      Progress(s, t, feeds[..i + 1], defaults, affected, converted + {feeds[i].id}, updated + 1)
    ensures feeds[i].name in defaults ==> Progress(s, t, feeds[..i + 1], defaults, affected, converted, updated)
  {
    IdsStep(feeds, i, defaults);
    RemoveOneMore(s, RemovedIds(feeds[..i], defaults), feeds[i].id);
  }

  lemma RemoveOneMore(s: Store, before: set<nat>, f: nat)
    ensures WithoutFeeds(WithoutFeeds(s, before), {f}) == WithoutFeeds(s, before + {f})
    ensures SourcedBy(s, before) + SourcedBy(WithoutFeeds(s, before), {f}) == SourcedBy(s, before + {f})
  {
    assert WithoutFeeds(WithoutFeeds(s, before), {f}).sources == WithoutFeeds(s, before + {f}).sources;
    assert WithoutFeeds(WithoutFeeds(s, before), {f}).feeds == WithoutFeeds(s, before + {f}).feeds;
    forall k | k in SourcedBy(s, before + {f})
      ensures k in SourcedBy(s, before) + SourcedBy(WithoutFeeds(s, before), {f})
    {
      var p :| p in s.sources && p.feed in before + {f} && p.obs == k;
      assert p.feed in before || p in WithoutFeeds(s, before).sources;
    }
  }
}
