/** From document texts to candidates: budgeted scanning, accumulation by key, and the cut to the earliest. */
module Extraction {
  import opened Wrappers
  import opened Observables
  import opened OffsetMap
  import opened HostSpans
  import opened UrlNormal
  import opened ScanPhases
  import opened StringOrder
  import D = DotCollapse
  import Sorting

  const MAX_SCAN_CHARS := 2_000_000
  const MAX_CANDIDATES := 1000

  /** The scan regexes, the refang regex, and format-character removal followed by NFC. */
  datatype ExtractLib = ExtractLib(scan: ScanLib, refang: string -> seq<Span>, compose: string -> string)

  ghost predicate ExtractLaws(lib: ExtractLib) {
    Searches(lib.scan) && forall text :: Matches(lib.refang(text), |text|)
  }

  // ── Preparing a text ──────────────────────────────────────────────────

  predicate IsDotHomoglyph(c: char) {
    c == '\U{FF0E}' || c == '\U{3002}' || c == '\U{FF61}'
  }

  function TranslateDots(text: string): (t: string)
    ensures |t| == |text|
    ensures forall i :: 0 <= i < |text| ==> t[i] == if IsDotHomoglyph(text[i]) then '.' else text[i]
  {
    seq(|text|, i requires 0 <= i < |text| => if IsDotHomoglyph(text[i]) then '.' else text[i])
  }

  function HomoglyphPositions(text: string): set<nat> {
    set i: nat | i < |text| && IsDotHomoglyph(text[i])
  }

  /** The normalized text, and which of its dots were homoglyphs. */
  function Prepare(lib: ExtractLib, text: string): (string, set<nat>) {
    if IsAscii(text) then (text, {})
    else
      var composed := lib.compose(text);
      (TranslateDots(composed), HomoglyphPositions(composed))
  }

  /** One of the three characters that stand for a dot in other scripts. */
  predicate IsOtherDot(c: char) {
    c in "\U{3002}\U{FF0E}\U{FF61}"
  }

  /** Every homoglyph is a dot of the prepared text, and none is left in it; nothing else is changed after composing. */
  lemma PreparedDots(lib: ExtractLib, text: string)
    ensures (forall i :: 0 <= i < |text| ==> text[i] <= '\U{007F}') ==> Prepare(lib, text) == (text, {})
    ensures (exists i :: 0 <= i < |text| && text[i] > '\U{007F}') ==>
      var (prepared, homoglyphs, composed) := (Prepare(lib, text).0, Prepare(lib, text).1, lib.compose(text));
      && |prepared| == |composed| && (forall p: nat :: p in homoglyphs <==> p < |composed| && IsOtherDot(composed[p]))
      && (forall i :: 0 <= i < |composed| ==> prepared[i] == if IsOtherDot(composed[i]) then '.' else composed[i])
    ensures var (prepared, homoglyphs) := Prepare(lib, text);
      && (forall p :: p in homoglyphs ==> p < |prepared| && prepared[p] == '.')
      && (forall i :: 0 <= i < |prepared| ==> !IsDotHomoglyph(prepared[i]))
  {
  }

  // ── Scanning one text ─────────────────────────────────────────────────

  /** The refanged text and its map. */
  function Refanged(lib: ExtractLib, text: string): (r: (string, Offsets))
    requires Matches(lib.refang(text), |text|)
    ensures Faithful(text, r.0, r.1.subs) && InText(r.0, r.1.subs) && DotAtomic(r.0, r.1.subs)
    ensures Ordered(r.1.subs) && r.1.defangs == r.1.subs
  {
    var matches := lib.refang(text);
    var p := SubstituteAll(text, matches, Replacements(text, matches), |matches|);
    RefangMeaning(text, matches, OffsetMap.Finished(text, p), Offsets(p.subs, p.subs, p.dots));
    FaithfulOrdered(text, OffsetMap.Finished(text, p), p.subs);
    (OffsetMap.Finished(text, p), Offsets(p.subs, p.subs, p.dots))
  }

  /** What the three regexes that locate hosts find in a text. */
  function HostsFound(lib: ScanLib, text: string): (f: Found)
    requires Searches(lib)
    ensures FoundIn(f, |text|)
  {
    var find := lib.find;
    assert Matches(find(Urls, text), |text|) && Matches(find(Emails, text), |text|) && Matches(find(Domains, text), |text|);
    Found(find(Urls, text), find(Emails, text), find(Domains, text))
  }

  /** The text the phases run on and its map: the refanged text with exactly its obfuscated host dots collapsed. */
  ghost predicate IsScannedText(lib: ExtractLib, text: string, homoglyphs: set<nat>, scanned: string, offsets: Offsets)
    requires ExtractLaws(lib)
  {
    var (refanged, o) := Refanged(lib, text);
    exists runs :: D.IsCollapse(refanged, HostsFound(lib.scan, refanged), o, homoglyphs, runs, scanned, offsets)
  }

  /** The hits of the six phases, all of them and no other. */
  ghost predicate AllHits(lib: ScanLib, scanned: string, o: Offsets, hits: seq<Hit>)
    requires Searches(lib)
  {
    && Ordered(o.defangs) && hits == ScanHits(lib, scanned, o) && IsScan(lib, scanned, o, hits)
    && forall hit :: hit in hits ==> HasVerdict(lib, scanned, o, hit)
  }

  /** The map of a scanned text loses nothing. */
  ghost predicate GoodMap(text: string, scanned: string, offsets: Offsets) {
    Aligned(text, scanned, offsets.subs) && Ordered(offsets.defangs) && Rebuild(text, scanned, offsets.subs) == text
  }

  /** Refang, collapse, scan: the hits are those of the six phases on the text so prepared. */
  method ScanText(lib: ExtractLib, text: string, homoglyphs: set<nat>) returns (hits: seq<Hit>, offsets: Offsets, scanned: string)
    requires ExtractLaws(lib)
    ensures IsScannedText(lib, text, homoglyphs, scanned, offsets)
    ensures GoodMap(text, scanned, offsets)
    ensures AllHits(lib.scan, scanned, offsets, hits) && AllApart(hits) && HitsWithin(hits, |scanned|)
  {
    scanned, offsets := PrepareHosts(lib, text, homoglyphs);
    hits := Scan(lib.scan, scanned, offsets);
  }

  /** Refang and collapse. */
  method PrepareHosts(lib: ExtractLib, text: string, homoglyphs: set<nat>) returns (scanned: string, offsets: Offsets)
    requires ExtractLaws(lib)
    ensures IsScannedText(lib, text, homoglyphs, scanned, offsets) && GoodMap(text, scanned, offsets)
  {
    var refanged, o := RefangText(lib, text);
    ghost var runs, cs, c;
    scanned, offsets, runs, cs, c := D.CollapseObfuscatedHostDots(refanged, HostsFound(lib.scan, refanged), o, homoglyphs);
    CollapsedMap(text, refanged, o, scanned, offsets, runs, cs, c);
  }

  method RefangText(lib: ExtractLib, text: string) returns (refanged: string, o: Offsets)
    requires Matches(lib.refang(text), |text|)
    ensures (refanged, o) == Refanged(lib, text)
  {
    refanged, o := Refang(text, lib.refang(text));
  }

  lemma {:induction false} CollapsedMap(
      text: string, refanged: string, o: Offsets, scanned: string, offsets: Offsets,
      runs: seq<D.DotRun>, cs: seq<D.Cursor>, c: D.Cursor)
    requires Faithful(text, refanged, o.subs) && InText(refanged, o.subs) && DotAtomic(refanged, o.subs)
    requires Ordered(o.subs) && o.defangs == o.subs && D.Collapsible(refanged, runs)
    requires runs == [] ==> scanned == refanged && offsets == o
    requires runs != [] ==> D.IsPass(refanged, o.subs, D.Places(o, runs), cs, c)
    requires runs != [] ==> scanned == c.parts && offsets == Offsets(c.mapping, c.defangs, {})
    ensures GoodMap(text, scanned, offsets)
  {
    FaithfulAligned(text, refanged, o.subs);
    if runs == [] {
      Lossless(text, refanged, o.subs);
    } else {
      D.PreparedTextLossless(text, refanged, o, runs, cs, c);
      D.PassDefangsOrdered(text, refanged, o.subs, runs, D.Places(o, runs), cs, c);
    }
  }

  // ── Accumulating hits ─────────────────────────────────────────────────

  datatype Position = Position(source: nat, offset: nat)

  predicate Earlier(a: Position, b: Position) {
    a.source < b.source || (a.source == b.source && a.offset < b.offset)
  }

  /** One hit, mapped back to the text it came from; position.offset is where it starts there. */
  datatype Record = Record(
    key: Key, valid: bool, warnings: seq<string>, position: Position, origEnd: nat, defanged: bool)

  /** What is kept for a key: how it was first seen, where it is earliest, and how often it occurs. */
  datatype Acc = Acc(first: Record, earliest: Record, occurrences: nat)

  function Accumulate(m: map<Key, Acc>, r: Record): map<Key, Acc> {
    if r.key !in m then m[r.key := Acc(r, r, 1)]
    else
      var acc := m[r.key];
      m[r.key := Acc(acc.first, if Earlier(r.position, acc.earliest.position) then r else acc.earliest, acc.occurrences + 1)]
  }

  function AccumulateAll(log: seq<Record>): map<Key, Acc> {
    if log == [] then map[] else Accumulate(AccumulateAll(log[..|log| - 1]), log[|log| - 1])
  }

  /** The keys in the order they were first seen, the insertion order of the dictionary. */
  function KeyOrder(log: seq<Record>): seq<Key> {
    if log == [] then []
    else
      var front := log[..|log| - 1];
      if log[|log| - 1].key in AccumulateAll(front) then KeyOrder(front) else KeyOrder(front) + [log[|log| - 1].key]
  }

  function CountKey(log: seq<Record>, k: Key): nat {
    if log == [] then 0 else CountKey(log[..|log| - 1], k) + (if log[|log| - 1].key == k then 1 else 0)
  }

  /** a is in an earlier source than b, or not behind it in the same one. */
  predicate NotBehind(a: Position, b: Position) {
    a.source < b.source || (a.source == b.source && a.offset <= b.offset)
  }

  /** r is one of the key's records, and no other is earlier. */
  ghost predicate IsEarliest(log: seq<Record>, r: Record) {
    r in log && forall q :: q in log && q.key == r.key ==> NotBehind(r.position, q.position)
  }

  /** r is the first record of its key. */
  ghost predicate IsFirst(log: seq<Record>, r: Record) {
    exists i :: 0 <= i < |log| && log[i] == r && forall j :: 0 <= j < i ==> log[j].key != r.key
  }

  ghost predicate AccMeans(log: seq<Record>, k: Key, acc: Acc) {
    && acc.occurrences == CountKey(log, k) >= 1
    && acc.earliest.key == k && IsEarliest(log, acc.earliest)
    && acc.first.key == k && IsFirst(log, acc.first)
  }

  lemma {:induction false} CountKeyZero(log: seq<Record>, k: Key)
    ensures CountKey(log, k) == 0 <==> forall r :: r in log ==> r.key != k
  {
    if log != [] {
      CountKeyZero(log[..|log| - 1], k);
      assert log == log[..|log| - 1] + [log[|log| - 1]];
      assert log[|log| - 1] in log;
    }
  }

  lemma FirstStays(front: seq<Record>, r: Record, first: Record)
    requires IsFirst(front, first)
    ensures IsFirst(front + [r], first)
  {
    var i :| 0 <= i < |front| && front[i] == first && forall j :: 0 <= j < i ==> front[j].key != first.key;
    assert (front + [r])[i] == first;
  }

  lemma EarliestStep(front: seq<Record>, r: Record, e: Record)
    requires IsEarliest(front, e) && e.key == r.key
    ensures IsEarliest(front + [r], if Earlier(r.position, e.position) then r else e)
  {
  }

  /** The dictionary holds, for every key of the log and no other, its count, its first record and its earliest one. */
  lemma {:induction false} AccumulateAllMeans(log: seq<Record>, k: Key)
    ensures k in AccumulateAll(log) <==> CountKey(log, k) > 0
    ensures k in AccumulateAll(log) ==> AccMeans(log, k, AccumulateAll(log)[k])
  {
    if log != [] {
      var front, r := log[..|log| - 1], log[|log| - 1];
      assert log == front + [r];
      AccumulateAllMeans(front, k);
      if k in AccumulateAll(front) {
        var acc := AccumulateAll(front)[k];
        FirstStays(front, r, acc.first);
        if r.key == k {
          EarliestStep(front, r, acc.earliest);
        }
      } else if r.key == k {
        CountKeyZero(front, k);
        assert log[|front|] == r;
      }
    }
  }

  lemma {:induction false} KeyOrderExact(log: seq<Record>)
    ensures forall k :: k in KeyOrder(log) <==> k in AccumulateAll(log)
    ensures forall i, j :: 0 <= i < j < |KeyOrder(log)| ==> KeyOrder(log)[i] != KeyOrder(log)[j]
  {
    if log != [] {
      KeyOrderExact(log[..|log| - 1]);
    }
  }

  function TotalOccurrences(keys: seq<Key>, m: map<Key, Acc>): nat
    requires forall k :: k in keys ==> k in m
  {
    if keys == [] then 0 else TotalOccurrences(keys[..|keys| - 1], m) + m[keys[|keys| - 1]].occurrences
  }

  lemma {:induction false} TotalAfterBump(keys: seq<Key>, m: map<Key, Acc>, r: Record)
    requires forall k :: k in keys ==> k in m
    requires forall i, j :: 0 <= i < j < |keys| ==> keys[i] != keys[j]
    ensures forall k :: k in keys ==> k in Accumulate(m, r)
    ensures TotalOccurrences(keys, Accumulate(m, r)) == TotalOccurrences(keys, m) + (if r.key in keys then 1 else 0)
  {
    if keys != [] {
      var front, last := keys[..|keys| - 1], keys[|keys| - 1];
      TotalAfterBump(front, m, r);
      assert keys == front + [last];
      assert last !in front;
    }
  }

  /** Every hit is counted under exactly one key. */
  lemma {:induction false} TotalIsLog(log: seq<Record>)
    ensures forall k :: k in KeyOrder(log) ==> k in AccumulateAll(log)
    ensures TotalOccurrences(KeyOrder(log), AccumulateAll(log)) == |log|
  {
    KeyOrderExact(log);
    if log != [] {
      var front, r := log[..|log| - 1], log[|log| - 1];
      TotalIsLog(front);
      KeyOrderExact(front);
      TotalAfterBump(KeyOrder(front), AccumulateAll(front), r);
      if r.key !in AccumulateAll(front) {
        assert KeyOrder(log)[..|KeyOrder(front)|] == KeyOrder(front);
      }
    }
  }

  // ── The log of all hits ───────────────────────────────────────────────

  /** One scanned text: its prepared form, the text the phases ran on, the map between them, and the hits. */
  datatype TextScan = TextScan(text: string, scanned: string, offsets: Offsets, hits: seq<Hit>)

  ghost predicate GoodScan(s: TextScan) {
    GoodMap(s.text, s.scanned, s.offsets) && AllApart(s.hits) && HitsWithin(s.hits, |s.scanned|)
  }

  function RecordOf(source: nat, o: Offsets, hit: Hit): Record
    requires Ordered(o.subs) && Ordered(o.defangs)
  {
    Record(Key(hit.typ, hit.value), hit.valid, hit.warnings, Position(source, o.Start(hit.start)),
      o.End(hit.end), o.Defanged(hit.start, hit.end))
  }

  function RecordsOf(source: nat, o: Offsets, hits: seq<Hit>): seq<Record>
    requires Ordered(o.subs) && Ordered(o.defangs)
  {
    if hits == [] then []
    else RecordsOf(source, o, hits[..|hits| - 1]) + [RecordOf(source, o, hits[|hits| - 1])]
  }

  /** The records of all texts, in source order. */
  function LogOf(scans: seq<TextScan>): seq<Record>
    requires forall i :: 0 <= i < |scans| ==> Ordered(scans[i].offsets.subs) && Ordered(scans[i].offsets.defangs)
  {
    if scans == [] then []
    else
      var last := scans[|scans| - 1];
      LogOf(scans[..|scans| - 1]) + RecordsOf(|scans| - 1, last.offsets, last.hits)
  }

  ghost predicate GoodScans(scans: seq<TextScan>) {
    forall i :: 0 <= i < |scans| ==> GoodScan(scans[i])
  }

  /** The record's range is a nonempty slice of its source. */
  ghost predicate WellPlaced(scans: seq<TextScan>, r: Record) {
    r.position.source < |scans| && r.position.offset < r.origEnd <= |scans[r.position.source].text|
  }

  lemma {:induction false} RecordsWellPlaced(source: nat, s: TextScan, hits: seq<Hit>)
    requires GoodScan(s)
    requires HitsWithin(hits, |s.scanned|)
    ensures forall r :: r in RecordsOf(source, s.offsets, hits) ==>
      r.position.source == source && r.position.offset < r.origEnd <= |s.text|
    decreases |hits|
  {
    if hits != [] {
      RecordsWellPlaced(source, s, hits[..|hits| - 1]);
      var hit := hits[|hits| - 1];
      RangeMapsToRange(s.offsets, s.text, s.scanned, hit.start, hit.end);
    }
  }

  lemma {:induction false} LogWellPlaced(scans: seq<TextScan>)
    requires GoodScans(scans)
    ensures forall r :: r in LogOf(scans) ==> WellPlaced(scans, r)
  {
    if scans != [] {
      var front, last := scans[..|scans| - 1], scans[|scans| - 1];
      LogWellPlaced(front);
      assert GoodScan(last);
      RecordsWellPlaced(|scans| - 1, last, last.hits);
      forall r | r in LogOf(scans)
        ensures WellPlaced(scans, r)
      {
        if r in LogOf(front) {
          assert WellPlaced(front, r);
        }
      }
    }
  }

  // ── Candidates ────────────────────────────────────────────────────────

  datatype Candidate = Candidate(
    key: Key, original: string, occurrences: nat, defanged: bool, valid: bool, warnings: seq<string>)

  function Clip(s: string, limit: nat): string {
    if |s| > limit then s[..limit] else s
  }

  function CandidateOf(scans: seq<TextScan>, k: Key, acc: Acc): Candidate
    requires WellPlaced(scans, acc.earliest)
  {
    var r := acc.earliest;
    Candidate(k, Clip(scans[r.position.source].text[r.position.offset..r.origEnd], MAX_VALUE_LENGTH),
      acc.occurrences, r.defanged, acc.first.valid, acc.first.warnings)
  }

  function CandidatesOf(scans: seq<TextScan>, keys: seq<Key>, m: map<Key, Acc>): (candidates: seq<Candidate>)
    requires forall k :: k in keys ==> k in m && WellPlaced(scans, m[k].earliest)
    ensures |candidates| == |keys|
  {
    if keys == [] then []
    else
      var k := keys[|keys| - 1];
      CandidatesOf(scans, keys[..|keys| - 1], m) + [CandidateOf(scans, k, m[k])]
  }

  function TypeName(t: ObsType): string {
    match t
    case IpAddr => "ip-addr"
    case DomainName => "domain-name"
    case Url => "url"
    case FileHash => "file-hash"
    case EmailAddr => "email-addr"
    case CommandLine => "command-line"
  }

  predicate CandidateLe(a: Candidate, b: Candidate) {
    if a.key.typ == b.key.typ then StringLe(a.key.value, b.key.value)
    else StringLess(TypeName(a.key.typ), TypeName(b.key.typ))
  }

  lemma TypeNameOrder(a: ObsType, b: ObsType, c: ObsType)
    ensures a == b || StringLess(TypeName(a), TypeName(b)) || StringLess(TypeName(b), TypeName(a))
    ensures !(StringLess(TypeName(a), TypeName(b)) && StringLess(TypeName(b), TypeName(a)))
    ensures StringLess(TypeName(a), TypeName(b)) && StringLess(TypeName(b), TypeName(c)) ==> StringLess(TypeName(a), TypeName(c))
  {
    StringLessTotal(TypeName(a), TypeName(b));
    if StringLess(TypeName(a), TypeName(b)) && StringLess(TypeName(b), TypeName(c)) {
      StringLessTransitive(TypeName(a), TypeName(b), TypeName(c));
    }
  }

  lemma CandidateLeTotal()
    ensures Sorting.Total(CandidateLe)
  {
    forall a, b
      ensures CandidateLe(a, b) || CandidateLe(b, a)
    {
      TypeNameOrder(a.key.typ, b.key.typ, b.key.typ);
      StringLessTotal(a.key.value, b.key.value);
    }
    forall a, b, c | CandidateLe(a, b) && CandidateLe(b, c)
      ensures CandidateLe(a, c)
    {
      TypeNameOrder(a.key.typ, b.key.typ, c.key.typ);
      TypeNameOrder(c.key.typ, b.key.typ, c.key.typ);
      if a.key.typ == b.key.typ == c.key.typ {
        StringLeTransitive(a.key.value, b.key.value, c.key.value);
      }
    }
  }

  // ── The cut to the earliest candidates ────────────────────────────────

  datatype Entry = Entry(key: Key, position: Position)

  predicate EntryLe(a: Entry, b: Entry) {
    !Earlier(b.position, a.position)
  }

  lemma EntryLeTotal()
    ensures Sorting.Total(EntryLe)
  {
  }

  function EntriesOf(keys: seq<Key>, m: map<Key, Acc>): (entries: seq<Entry>)
    requires forall k :: k in keys ==> k in m
    ensures |entries| == |keys|
    ensures forall i :: 0 <= i < |keys| ==> entries[i] == Entry(keys[i], m[keys[i]].earliest.position)
  {
    if keys == [] then []
    else
      var k := keys[|keys| - 1];
      EntriesOf(keys[..|keys| - 1], m) + [Entry(k, m[k].earliest.position)]
  }

  function KeysOf(entries: seq<Entry>): (keys: seq<Key>)
    ensures |keys| == |entries|
    ensures forall i :: 0 <= i < |keys| ==> keys[i] == entries[i].key
  {
    seq(|entries|, i requires 0 <= i < |entries| => entries[i].key)
  }

  /** The chosen keys: all of them, or the earliest so many. */
  ghost predicate Chosen(keys: seq<Key>, m: map<Key, Acc>, chosen: seq<Key>) {
    && Sorting.Distinct(chosen) && |chosen| == (if |keys| > MAX_CANDIDATES then MAX_CANDIDATES else |keys|)
    && (forall k :: k in chosen ==> k in keys && k in m)
    && (|keys| <= MAX_CANDIDATES ==> chosen == keys)
    && forall k, q :: k in chosen && q in keys && q !in chosen && q in m ==>
      !Earlier(m[q].earliest.position, m[k].earliest.position)
  }

  /** The entries of all the keys, earliest first. */
  ghost predicate OrderedEntries(keys: seq<Key>, m: map<Key, Acc>, ordered: seq<Entry>) {
    && |ordered| == |keys| && Sorting.Distinct(ordered) && Sorting.Sorted(ordered, EntryLe)
    && (forall i :: 0 <= i < |ordered| ==> EntryIn(keys, m, ordered[i]))
    && (forall k :: k in keys && k in m ==> Entry(k, m[k].earliest.position) in ordered)
  }

  ghost predicate EntryIn(keys: seq<Key>, m: map<Key, Acc>, e: Entry) {
    e.key in keys && e.key in m && e.position == m[e.key].earliest.position
  }

  lemma SortedEntries(keys: seq<Key>, m: map<Key, Acc>)
    requires Sorting.Distinct(keys) && forall k :: k in keys ==> k in m
    ensures OrderedEntries(keys, m, Sorting.Sort(EntriesOf(keys, m), EntryLe))
  {
    EntryLeTotal();
    var entries := EntriesOf(keys, m);
    var ordered := Sorting.Sort(entries, EntryLe);
    Sorting.SortSpec(entries, EntryLe);
    Sorting.SortMembers(entries, EntryLe);
    assert Sorting.Distinct(entries);
    Sorting.MultisetDistinct(entries, ordered);
    forall i | 0 <= i < |ordered|
      ensures EntryIn(keys, m, ordered[i])
    {
      assert ordered[i] in entries;
    }
    forall k | k in keys && k in m
      ensures Entry(k, m[k].earliest.position) in ordered
    {
      var a :| 0 <= a < |keys| && keys[a] == k;
      assert entries[a] in ordered;
    }
  }

  lemma CutIsDistinct(keys: seq<Key>, m: map<Key, Acc>, ordered: seq<Entry>, n: nat)
    requires OrderedEntries(keys, m, ordered) && n <= |ordered|
    ensures Sorting.Distinct(KeysOf(ordered[..n])) && forall k :: k in KeysOf(ordered[..n]) ==> k in keys && k in m
  {
    var chosen := KeysOf(ordered[..n]);
    forall i | 0 <= i < n
      ensures chosen[i] == ordered[i].key && EntryIn(keys, m, ordered[i])
    {
    }
    forall i, j | 0 <= i < j < n
      ensures chosen[i] != chosen[j]
    {
      assert ordered[i] != ordered[j];
    }
  }

  lemma CutIsEarliest(keys: seq<Key>, m: map<Key, Acc>, ordered: seq<Entry>, n: nat, k: Key, q: Key)
    requires OrderedEntries(keys, m, ordered) && n <= |ordered|
    requires k in KeysOf(ordered[..n]) && q in keys && q in m && q !in KeysOf(ordered[..n])
    ensures k in m && !Earlier(m[q].earliest.position, m[k].earliest.position)
  {
    var chosen := KeysOf(ordered[..n]);
    forall a | 0 <= a < n
      ensures ordered[a].key in chosen
    {
      assert chosen[a] == ordered[a].key;
    }
    var i :| 0 <= i < n && chosen[i] == k;
    assert EntryIn(keys, m, ordered[i]);
    var j :| 0 <= j < |ordered| && ordered[j] == Entry(q, m[q].earliest.position);
    assert EntryLe(ordered[i], ordered[j]);
  }

  /** Sorting by position and cutting keeps the earliest keys. */
  lemma EarliestChosen(keys: seq<Key>, m: map<Key, Acc>)
    requires Sorting.Distinct(keys) && |keys| > MAX_CANDIDATES && forall k :: k in keys ==> k in m
    ensures |Sorting.Sort(EntriesOf(keys, m), EntryLe)| == |keys|
    ensures Chosen(keys, m, KeysOf(Sorting.Sort(EntriesOf(keys, m), EntryLe)[..MAX_CANDIDATES]))
  {
    SortedEntries(keys, m);
    var ordered := Sorting.Sort(EntriesOf(keys, m), EntryLe);
    var chosen := KeysOf(ordered[..MAX_CANDIDATES]);
    CutIsDistinct(keys, m, ordered, MAX_CANDIDATES);
    forall k, q | k in chosen && q in keys && q !in chosen && q in m
      ensures !Earlier(m[q].earliest.position, m[k].earliest.position)
    {
      CutIsEarliest(keys, m, ordered, MAX_CANDIDATES, k, q);
    }
  }

  // ── The entry point ───────────────────────────────────────────────────

  function TotalLength(scans: seq<TextScan>): nat {
    if scans == [] then 0 else TotalLength(scans[..|scans| - 1]) + |scans[|scans| - 1].text|
  }

  function SumOccurrences(candidates: seq<Candidate>): nat {
    if candidates == [] then 0
    else SumOccurrences(candidates[..|candidates| - 1]) + candidates[|candidates| - 1].occurrences
  }

  /** What the source scans of a text when so many characters are left: both the text and its prepared form are cut. */
  function Budgeted(lib: ExtractLib, text: string, left: nat): (r: (string, set<nat>))
    ensures |r.0| <= left
  {
    var (prepared, homoglyphs) := Prepare(lib, Clip(text, left));
    (Clip(prepared, left), set p | p in homoglyphs && p < left)
  }

  /** A character of the text, or of its prepared form, does not fit. */
  predicate IsCut(lib: ExtractLib, text: string, left: nat) {
    |text| > left || |Prepare(lib, text).0| > left
  }

  /** s is the scan of a text within the characters left: its prepared form, and all the hits of the phases on it. */
  ghost predicate IsScanOf(lib: ExtractLib, text: string, left: nat, s: TextScan)
    requires ExtractLaws(lib)
  {
    var (prepared, homoglyphs) := Budgeted(lib, text, left);
    && s.text == prepared && IsScannedText(lib, prepared, homoglyphs, s.scanned, s.offsets)
    && AllHits(lib.scan, s.scanned, s.offsets, s.hits)
  }

  /** The characters left after the first i scans. */
  function Left(scans: seq<TextScan>, i: nat): nat
    requires i <= |scans|
  {
    var used := TotalLength(scans[..i]);
    if used < MAX_SCAN_CHARS then MAX_SCAN_CHARS - used else 0
  }

  ghost predicate ScanAt(lib: ExtractLib, texts: seq<string>, scans: seq<TextScan>, i: nat)
    requires ExtractLaws(lib) && i < |scans| <= |texts|
  {
    IsScanOf(lib, texts[i], Left(scans, i), scans[i])
  }

  /** Every text so far has been scanned within what the earlier ones left of the budget. */
  ghost predicate AllScanned(lib: ExtractLib, texts: seq<string>, scans: seq<TextScan>)
    requires ExtractLaws(lib)
  {
    |scans| <= |texts| && forall i :: 0 <= i < |scans| ==> ScanAt(lib, texts, scans, i)
  }

  predicate CutAt(lib: ExtractLib, texts: seq<string>, scans: seq<TextScan>, i: nat)
    requires i < |scans| <= |texts|
  {
    IsCut(lib, texts[i], Left(scans, i))
  }

  /** Some text did not fit into what was left of the budget when its turn came. */
  ghost predicate SomeCut(lib: ExtractLib, texts: seq<string>, scans: seq<TextScan>)
    requires |scans| <= |texts|
  {
    exists i :: 0 <= i < |scans| && CutAt(lib, texts, scans, i)
  }

  ghost predicate WhollyScanned(lib: ExtractLib, text: string, s: TextScan) {
    s.text == Prepare(lib, text).0
  }

  ghost predicate AllWhollyScanned(lib: ExtractLib, texts: seq<string>, scans: seq<TextScan>) {
    |scans| <= |texts| && forall i :: 0 <= i < |scans| ==> WhollyScanned(lib, texts[i], scans[i])
  }

  lemma UncutIsWhole(lib: ExtractLib, text: string, left: nat, s: TextScan)
    requires ExtractLaws(lib) && IsScanOf(lib, text, left, s) && !IsCut(lib, text, left)
    ensures WhollyScanned(lib, text, s)
  {
  }

  /** When nothing was cut, every text was scanned in full. */
  lemma UncutAreWhole(lib: ExtractLib, texts: seq<string>, scans: seq<TextScan>)
    requires ExtractLaws(lib) && AllScanned(lib, texts, scans) && !SomeCut(lib, texts, scans)
    ensures AllWhollyScanned(lib, texts, scans)
  {
    forall i | 0 <= i < |scans|
      ensures WhollyScanned(lib, texts[i], scans[i])
    {
      assert ScanAt(lib, texts, scans, i) && !CutAt(lib, texts, scans, i);
      UncutIsWhole(lib, texts[i], Left(scans, i), scans[i]);
    }
  }

  lemma OneScan(lib: ExtractLib, text: string, left: nat, a: TextScan, same: nat, b: TextScan)
    requires ExtractLaws(lib) && IsScanOf(lib, text, left, a) && IsScanOf(lib, text, same, b) && left == same
    ensures a == b
  {
    var (prepared, homoglyphs) := Budgeted(lib, text, left);
    OneScannedText(lib, prepared, homoglyphs, a.scanned, a.offsets, b.scanned, b.offsets);
  }

  lemma OneScannedText(
      lib: ExtractLib, text: string, homoglyphs: set<nat>, a: string, ao: Offsets, b: string, bo: Offsets)
    requires ExtractLaws(lib) && IsScannedText(lib, text, homoglyphs, a, ao) && IsScannedText(lib, text, homoglyphs, b, bo)
    ensures a == b && ao == bo
  {
    var (refanged, o) := Refanged(lib, text);
    var f := HostsFound(lib.scan, refanged);
    var runs :| D.IsCollapse(refanged, f, o, homoglyphs, runs, a, ao);
    var others :| D.IsCollapse(refanged, f, o, homoglyphs, others, b, bo);
    D.CollapseUnique(refanged, f, o, homoglyphs, runs, a, ao, others, b, bo);
  }

  lemma AtIndex(lib: ExtractLib, texts: seq<string>, scans: seq<TextScan>, i: nat)
    requires ExtractLaws(lib) && AllScanned(lib, texts, scans) && i < |scans|
    ensures IsScanOf(lib, texts[i], Left(scans, i), scans[i])
  {
    assert ScanAt(lib, texts, scans, i);
  }

  lemma LeftSame(a: seq<TextScan>, b: seq<TextScan>, i: nat)
    requires i <= |a| && i <= |b| && a[..i] == b[..i]
    ensures Left(a, i) == Left(b, i)
  {
  }

  lemma SamePrefix(a: seq<TextScan>, b: seq<TextScan>, i: nat)
    requires i < |a| && i < |b| && a[..i] == b[..i] && a[i] == b[i]
    ensures a[..i + 1] == b[..i + 1]
  {
  }

  lemma NextSame(lib: ExtractLib, texts: seq<string>, a: seq<TextScan>, b: seq<TextScan>, i: nat)
    requires ExtractLaws(lib) && AllScanned(lib, texts, a) && AllScanned(lib, texts, b)
    requires i < |a| && i < |b| && a[..i] == b[..i]
    ensures a[..i + 1] == b[..i + 1]
  {
    AtIndex(lib, texts, a, i);
    AtIndex(lib, texts, b, i);
    LeftSame(a, b, i);
    OneScan(lib, texts[i], Left(a, i), a[i], Left(b, i), b[i]);
    SamePrefix(a, b, i);
  }

  /** The texts determine their scans: nothing of what was scanned, mapped or found is left open. */
  lemma {:induction false} ScansDetermined(lib: ExtractLib, texts: seq<string>, a: seq<TextScan>, b: seq<TextScan>, i: nat)
    requires ExtractLaws(lib) && AllScanned(lib, texts, a) && AllScanned(lib, texts, b) && i <= |a| && i <= |b|
    ensures a[..i] == b[..i]
  {
    if i > 0 {
      ScansDetermined(lib, texts, a, b, i - 1);
      NextSame(lib, texts, a, b, i - 1);
    }
  }

  /** One text within the rest of the budget; cut says whether a character of it was left out. */
  method ScanOne(lib: ExtractLib, fullText: string, remaining: nat) returns (s: TextScan, cut: bool)
    requires ExtractLaws(lib)
    ensures GoodScan(s) && |s.text| <= remaining
    ensures IsScanOf(lib, fullText, remaining, s)
    ensures cut == IsCut(lib, fullText, remaining)
  {
    cut := false;
    if remaining == 0 {
      EmptyScanIsGood();
      EmptyScan(lib, fullText);
      CutOfNothingLeft(lib, fullText);
      return NOTHING, fullText != "";
    }
    var prepared, homoglyphs;
    prepared, homoglyphs, cut := CutToBudget(lib, fullText, remaining);
    var hits, offsets, scanned := ScanText(lib, prepared, homoglyphs);
    s := TextScan(prepared, scanned, offsets, hits);
  }

  /** The text is cut to what is left, and so is its normalized form, which may be longer. */
  method CutToBudget(lib: ExtractLib, fullText: string, remaining: nat) returns (prepared: string, homoglyphs: set<nat>, cut: bool)
    ensures (prepared, homoglyphs) == Budgeted(lib, fullText, remaining) && cut == IsCut(lib, fullText, remaining)
  {
    cut := false;
    var text := fullText;
    if |text| > remaining {
      text := text[..remaining];
      cut := true;
    }
    PreparedDots(lib, text);
    var (whole, dots) := Prepare(lib, text);
    if |whole| > remaining {
      return whole[..remaining], set p | p in dots && p < remaining, true;
    }
    assert dots == set p | p in dots && p < remaining;
    return whole, dots, cut;
  }

  lemma ScansStep(lib: ExtractLib, texts: seq<string>, scans: seq<TextScan>, s: TextScan)
    requires ExtractLaws(lib) && |scans| < |texts| && GoodScans(scans) && AllScanned(lib, texts, scans)
    requires GoodScan(s) && IsScanOf(lib, texts[|scans|], Left(scans, |scans|), s)
    ensures GoodScans(scans + [s]) && TotalLength(scans + [s]) == TotalLength(scans) + |s.text|
    ensures AllScanned(lib, texts, scans + [s])
    ensures SomeCut(lib, texts, scans + [s]) <==>
      SomeCut(lib, texts, scans) || IsCut(lib, texts[|scans|], Left(scans, |scans|))
  {
    TotalStep(scans, s);
    GoodStep(scans, s);
    LeftStep(scans, s);
    ScannedStep(lib, texts, scans, s);
    CutStep(lib, texts, scans, s);
  }

  lemma GoodStep(scans: seq<TextScan>, s: TextScan)
    requires GoodScans(scans) && GoodScan(s)
    ensures GoodScans(scans + [s])
  {
  }

  ghost predicate SameLeft(now: seq<TextScan>, scans: seq<TextScan>) {
    |scans| <= |now| && forall i :: 0 <= i <= |scans| ==> Left(now, i) == Left(scans, i)
  }

  lemma LeftStep(scans: seq<TextScan>, s: TextScan)
    ensures SameLeft(scans + [s], scans)
  {
    var now := scans + [s];
    forall i | 0 <= i <= |scans|
      ensures Left(now, i) == Left(scans, i)
    {
      assert now[..i] == scans[..i];
    }
  }

  lemma ScannedStep(lib: ExtractLib, texts: seq<string>, scans: seq<TextScan>, s: TextScan)
    requires ExtractLaws(lib) && |scans| < |texts| && AllScanned(lib, texts, scans) && SameLeft(scans + [s], scans)
    requires IsScanOf(lib, texts[|scans|], Left(scans, |scans|), s)
    ensures AllScanned(lib, texts, scans + [s])
  {
    var now := scans + [s];
    forall i | 0 <= i < |now|
      ensures ScanAt(lib, texts, now, i)
    {
      assert now[i] == if i < |scans| then scans[i] else s;
      assert Left(now, i) == Left(scans, i);
      assert i < |scans| ==> ScanAt(lib, texts, scans, i);
    }
  }

  lemma CutStep(lib: ExtractLib, texts: seq<string>, scans: seq<TextScan>, s: TextScan)
    requires |scans| < |texts| && SameLeft(scans + [s], scans)
    ensures SomeCut(lib, texts, scans + [s]) <==>
      SomeCut(lib, texts, scans) || IsCut(lib, texts[|scans|], Left(scans, |scans|))
  {
    var now := scans + [s];
    assert CutAt(lib, texts, now, |scans|) <==> IsCut(lib, texts[|scans|], Left(scans, |scans|));
    forall i | 0 <= i < |scans|
      ensures CutAt(lib, texts, now, i) <==> CutAt(lib, texts, scans, i)
    {
    }
  }

  lemma TotalStep(scans: seq<TextScan>, s: TextScan)
    ensures TotalLength(scans + [s]) == TotalLength(scans) + |s.text|
  {
    assert (scans + [s])[..|scans|] == scans;
  }

  /** Scans every text within the character budget; truncated says exactly whether one of them did not fit. */
  method ScanAll(lib: ExtractLib, texts: seq<string>) returns (truncated: bool, scans: seq<TextScan>)
    requires ExtractLaws(lib)
    ensures |scans| == |texts| && GoodScans(scans) && TotalLength(scans) <= MAX_SCAN_CHARS
    ensures AllScanned(lib, texts, scans) && truncated == SomeCut(lib, texts, scans)
  {
    truncated, scans := false, [];
    var remaining := MAX_SCAN_CHARS;
    NoScans(lib, texts);
    for i := 0 to |texts|
      invariant |scans| == i && GoodScans(scans)
      invariant 0 <= remaining && TotalLength(scans) + remaining == MAX_SCAN_CHARS
      invariant AllScanned(lib, texts, scans) && truncated == SomeCut(lib, texts, scans)
    {
      LeftIs(scans, remaining);
      var s, cut := ScanNext(lib, texts, scans, remaining);
      truncated := truncated || cut;
      remaining := remaining - |s.text|;
      scans := scans + [s];
    }
  }

  lemma NoScans(lib: ExtractLib, texts: seq<string>)
    requires ExtractLaws(lib)
    ensures GoodScans([]) && AllScanned(lib, texts, []) && !SomeCut(lib, texts, [])
  {
  }

  lemma LeftIs(scans: seq<TextScan>, remaining: nat)
    requires TotalLength(scans) + remaining == MAX_SCAN_CHARS
    ensures Left(scans, |scans|) == remaining
  {
    assert scans[..|scans|] == scans;
  }

  method ScanNext(lib: ExtractLib, texts: seq<string>, scans: seq<TextScan>, remaining: nat) returns (s: TextScan, cut: bool)
    requires ExtractLaws(lib) && |scans| < |texts| && GoodScans(scans) && AllScanned(lib, texts, scans)
    requires remaining == Left(scans, |scans|)
    ensures GoodScans(scans + [s]) && TotalLength(scans + [s]) == TotalLength(scans) + |s.text| && |s.text| <= remaining
    ensures AllScanned(lib, texts, scans + [s])
    ensures SomeCut(lib, texts, scans + [s]) <==> SomeCut(lib, texts, scans) || cut
  {
    s, cut := ScanOne(lib, texts[|scans|], Left(scans, |scans|));
    ScansStep(lib, texts, scans, s);
  }

  const NOTHING := TextScan("", "", Offsets([], [], {}), [])

  lemma EmptyScanIsGood()
    ensures GoodScan(NOTHING)
  {
    FaithfulAligned("", "", []);
  }

  /** Skipping a text when nothing is left of the budget is scanning none of it. */
  lemma EmptyScan(lib: ExtractLib, text: string)
    requires ExtractLaws(lib)
    ensures IsScanOf(lib, text, 0, NOTHING)
  {
    EmptyScanned(lib);
    NoHits(lib.scan, Offsets([], [], {}));
    EmptyBudget(lib, text);
    NothingScanned(lib, text);
  }

  lemma CutOfNothingLeft(lib: ExtractLib, text: string)
    ensures IsCut(lib, text, 0) <==> text != ""
  {
    assert Prepare(lib, "") == ("", {});
  }

  lemma NothingScanned(lib: ExtractLib, text: string)
    requires ExtractLaws(lib) && Budgeted(lib, text, 0) == ("", {})
    requires IsScannedText(lib, "", {}, "", Offsets([], [], {})) && AllHits(lib.scan, "", Offsets([], [], {}), [])
    ensures IsScanOf(lib, text, 0, NOTHING)
  {
  }

  lemma NoHits(lib: ScanLib, o: Offsets)
    requires Searches(lib) && Ordered(o.defangs)
    ensures AllHits(lib, "", o, [])
  {
    NothingToFind(lib, o, |PHASES|);
    ScanIsInTurn(lib, "", o);
  }

  lemma EmptyBudget(lib: ExtractLib, text: string)
    ensures Budgeted(lib, text, 0) == ("", {})
  {
    assert Clip(text, 0) == "" && IsAscii("") && Prepare(lib, "") == ("", {});
    assert Budgeted(lib, text, 0).1 == {};
  }

  lemma EmptyScanned(lib: ExtractLib)
    requires ExtractLaws(lib)
    ensures IsScannedText(lib, "", {}, "", Offsets([], [], {}))
  {
    assert Matches(lib.refang(""), 0);
    var o := Offsets([], [], {});
    assert Refanged(lib, "") == ("", o);
    NothingToCollapse(HostsFound(lib.scan, ""), o);
  }

  lemma NothingToCollapse(f: Found, o: Offsets)
    requires FoundIn(f, 0) && Ordered(o.subs)
    ensures D.IsCollapse("", f, o, {}, [], "", o)
  {
  }

  lemma {:induction false} NothingToFind(lib: ScanLib, o: Offsets, n: nat)
    requires Searches(lib) && Ordered(o.defangs) && n <= |PHASES|
    ensures HitsBefore(lib, "", o, n) == []
  {
    if n > 0 {
      NothingToFind(lib, o, n - 1);
      var seen := TextBefore(lib, "", o, n - 1);
      assert seen == "" && Matches(lib.find(PHASES[n - 1], seen), 0);
    }
  }

  /** The hits of one text, added to the dictionary one at a time. */
  method AccumulateHits(source: nat, o: Offsets, hits: seq<Hit>, m0: map<Key, Acc>, order0: seq<Key>, ghost log0: seq<Record>)
    returns (m: map<Key, Acc>, order: seq<Key>)
    requires Ordered(o.subs) && Ordered(o.defangs)
    requires m0 == AccumulateAll(log0) && order0 == KeyOrder(log0)
    ensures m == AccumulateAll(log0 + RecordsOf(source, o, hits)) && order == KeyOrder(log0 + RecordsOf(source, o, hits))
  {
    m, order := m0, order0;
    assert hits[..0] == [] && log0 + [] == log0;
    for j := 0 to |hits|
      invariant m == AccumulateAll(log0 + RecordsOf(source, o, hits[..j]))
      invariant order == KeyOrder(log0 + RecordsOf(source, o, hits[..j]))
    {
      HitStep(log0, source, o, hits, j);
      m, order := AccumulateOne(m, order, RecordOf(source, o, hits[j]));
    }
    assert hits[..|hits|] == hits;
  }

  method AccumulateOne(m0: map<Key, Acc>, order0: seq<Key>, r: Record) returns (m: map<Key, Acc>, order: seq<Key>)
    ensures m == Accumulate(m0, r) && order == if r.key in m0 then order0 else order0 + [r.key]
  {
    if r.key !in m0 {
      return m0[r.key := Acc(r, r, 1)], order0 + [r.key];
    }
    var acc := m0[r.key];
    var earliest := if Earlier(r.position, acc.earliest.position) then r else acc.earliest;
    return m0[r.key := Acc(acc.first, earliest, acc.occurrences + 1)], order0;
  }

  lemma HitStep(log: seq<Record>, source: nat, o: Offsets, hits: seq<Hit>, j: nat)
    requires Ordered(o.subs) && Ordered(o.defangs) && j < |hits|
    ensures var now := log + RecordsOf(source, o, hits[..j]);
      var next := log + RecordsOf(source, o, hits[..j + 1]);
      var r := RecordOf(source, o, hits[j]);
      && AccumulateAll(next) == Accumulate(AccumulateAll(now), r)
      && KeyOrder(next) == if r.key in AccumulateAll(now) then KeyOrder(now) else KeyOrder(now) + [r.key]
  {
    RecordsStep(source, o, hits, j);
    var now, r := log + RecordsOf(source, o, hits[..j]), RecordOf(source, o, hits[j]);
    assert log + RecordsOf(source, o, hits[..j + 1]) == now + [r];
    LogStep(now, r);
  }

  lemma RecordsStep(source: nat, o: Offsets, hits: seq<Hit>, j: nat)
    requires Ordered(o.subs) && Ordered(o.defangs) && j < |hits|
    ensures RecordsOf(source, o, hits[..j + 1]) == RecordsOf(source, o, hits[..j]) + [RecordOf(source, o, hits[j])]
  {
    assert hits[..j + 1][..j] == hits[..j];
  }

  lemma ScansLogStep(scans: seq<TextScan>, i: nat)
    requires GoodScans(scans) && i < |scans|
    ensures GoodScans(scans[..i]) && GoodScans(scans[..i + 1]) && GoodScan(scans[i])
    ensures LogOf(scans[..i + 1]) == LogOf(scans[..i]) + RecordsOf(i, scans[i].offsets, scans[i].hits)
  {
    assert scans[..i + 1][..i] == scans[..i];
    GoodPrefix(scans, i);
    GoodPrefix(scans, i + 1);
  }

  lemma GoodPrefix(scans: seq<TextScan>, i: nat)
    requires GoodScans(scans) && i <= |scans|
    ensures GoodScans(scans[..i])
    ensures forall k :: 0 <= k < i ==> Ordered(scans[..i][k].offsets.subs) && Ordered(scans[..i][k].offsets.defangs)
  {
    forall k | 0 <= k < i
      ensures GoodScan(scans[..i][k])
    {
      assert scans[..i][k] == scans[k];
    }
  }

  /** The dictionary of accumulated hits, filled one text at a time. */
  method AccumulateScans(scans: seq<TextScan>) returns (m: map<Key, Acc>, order: seq<Key>)
    requires GoodScans(scans)
    ensures m == AccumulateAll(LogOf(scans)) && order == KeyOrder(LogOf(scans))
  {
    m, order := map[], [];
    ghost var log: seq<Record> := [];
    for i := 0 to |scans|
      invariant GoodScans(scans[..i]) && log == LogOf(scans[..i])
      invariant m == AccumulateAll(log) && order == KeyOrder(log)
    {
      ScansLogStep(scans, i);
      m, order := AccumulateHits(i, scans[i].offsets, scans[i].hits, m, order, log);
      log := log + RecordsOf(i, scans[i].offsets, scans[i].hits);
    }
    assert scans[..|scans|] == scans;
  }

  lemma LogStep(log: seq<Record>, r: Record)
    ensures AccumulateAll(log + [r]) == Accumulate(AccumulateAll(log), r)
    ensures KeyOrder(log + [r]) == if r.key in AccumulateAll(log) then KeyOrder(log) else KeyOrder(log) + [r.key]
  {
    assert (log + [r])[..|log|] == log;
  }

  lemma {:induction false} CandidatesMeaning(scans: seq<TextScan>, keys: seq<Key>, m: map<Key, Acc>)
    requires forall k :: k in keys ==> k in m && WellPlaced(scans, m[k].earliest)
    ensures SumOccurrences(CandidatesOf(scans, keys, m)) == TotalOccurrences(keys, m)
  {
    if keys != [] {
      var front := CandidatesOf(scans, keys[..|keys| - 1], m);
      var last := CandidateOf(scans, keys[|keys| - 1], m[keys[|keys| - 1]]);
      CandidatesMeaning(scans, keys[..|keys| - 1], m);
      SumAppend(front, last);
    }
  }

  lemma SumAppend(front: seq<Candidate>, last: Candidate)
    ensures SumOccurrences(front + [last]) == SumOccurrences(front) + last.occurrences
  {
    assert (front + [last])[..|front|] == front;
  }

  lemma {:induction false} CandidateAt(scans: seq<TextScan>, keys: seq<Key>, m: map<Key, Acc>, i: nat)
    requires i < |keys| && forall k :: k in keys ==> k in m && WellPlaced(scans, m[k].earliest)
    ensures CandidatesOf(scans, keys, m)[i] == CandidateOf(scans, keys[i], m[keys[i]])
    decreases |keys|
  {
    if i < |keys| - 1 {
      CandidateAt(scans, keys[..|keys| - 1], m, i);
    }
  }

  lemma {:induction false} SumOfPermutation(a: seq<Candidate>, b: seq<Candidate>)
    requires multiset(a) == multiset(b)
    ensures SumOccurrences(a) == SumOccurrences(b)
    decreases |a|
  {
    assert |a| == |multiset(a)| == |multiset(b)| == |b|;
    if a != [] {
      var last, front := a[|a| - 1], a[..|a| - 1];
      assert a == front + [last];
      assert last in multiset(b);
      var j :| 0 <= j < |b| && b[j] == last;
      var rest := b[..j] + b[j + 1..];
      WithoutAt(b, j);
      SumOfPermutation(front, rest);
      SumWithout(b, j);
    }
  }

  lemma WithoutAt(b: seq<Candidate>, j: nat)
    requires j < |b|
    ensures multiset(b[..j] + b[j + 1..]) == multiset(b) - multiset{b[j]}
  {
    assert b == b[..j] + [b[j]] + b[j + 1..];
  }

  lemma {:induction false} SumWithout(b: seq<Candidate>, j: nat)
    requires j < |b|
    ensures SumOccurrences(b) == SumOccurrences(b[..j] + b[j + 1..]) + b[j].occurrences
    decreases |b|
  {
    var front := b[..|b| - 1];
    if j == |b| - 1 {
      assert b[..j] + b[j + 1..] == front;
    } else {
      SumWithout(front, j);
      assert (b[..j] + b[j + 1..])[..|b| - 2] == front[..j] + front[j + 1..];
    }
  }

  /** The candidate reports its key's number of hits, its earliest hit's slice and defang state, and its first hit's verdict. */
  ghost predicate Describes(scans: seq<TextScan>, log: seq<Record>, c: Candidate) {
    && c.occurrences == |set n: nat | n < |log| && log[n].key == c.key|
    && (exists r :: IsFirst(log, r) && r.key == c.key && c.valid == r.valid && c.warnings == r.warnings)
    && exists r :: IsEarliest(log, r) && r.key == c.key && c.defanged == r.defanged && ShowsSlice(scans, r, c.original)
  }

  /** original is what stands at the record's place, cut to 2048 characters. */
  ghost predicate ShowsSlice(scans: seq<TextScan>, r: Record, original: string) {
    && WellPlaced(scans, r)
    && var slice := scans[r.position.source].text[r.position.offset..r.origEnd];
      original <= slice && (|slice| <= 2048 ==> original == slice) && (|slice| > 2048 ==> |original| == 2048)
  }

  lemma {:induction false} CountKeyIs(log: seq<Record>, k: Key)
    ensures CountKey(log, k) == |set n: nat | n < |log| && log[n].key == k|
  {
    if log != [] {
      CountKeyIs(log[..|log| - 1], k);
      PlacesStep(log, |log| - 1, k);
    }
  }

  lemma PlacesStep(log: seq<Record>, last: nat, k: Key)
    requires last == |log| - 1
    ensures var before := |set n: nat | n < last && log[..last][n].key == k|;
      |set n: nat | n < |log| && log[n].key == k| == before + if log[last].key == k then 1 else 0
  {
    var before := set n: nat | n < last && log[..last][n].key == k;
    var all := set n: nat | n < |log| && log[n].key == k;
    assert forall n: nat :: n in all <==> n in before || (n == last && log[last].key == k);
    assert all == before + if log[last].key == k then {last} else {};
  }

  lemma CandidateDescribes(scans: seq<TextScan>, log: seq<Record>, k: Key, acc: Acc)
    requires AccMeans(log, k, acc) && WellPlaced(scans, acc.earliest)
    ensures Describes(scans, log, CandidateOf(scans, k, acc))
  {
    CountKeyIs(log, k);
    assert ShowsSlice(scans, acc.earliest, CandidateOf(scans, k, acc).original);
  }

  /** The record of a hit: its key and verdict, where it stands in the source, and whether a defang touches it. */
  ghost predicate Logs(s: TextScan, source: nat, hit: Hit, r: Record)
    requires GoodScan(s)
  {
    && r.key == Key(hit.typ, hit.value) && r.valid == hit.valid && r.warnings == hit.warnings
    && r.position.source == source && r.position.offset == s.offsets.Start(hit.start) && r.origEnd == s.offsets.End(hit.end)
    && (r.defanged <==> TouchesDefang(s.offsets, hit.start, hit.end))
  }

  /** How many hits the first n texts have. */
  function HitsUpTo(scans: seq<TextScan>, n: nat): nat
    requires n <= |scans|
  {
    if n == 0 then 0 else HitsUpTo(scans, n - 1) + |scans[n - 1].hits|
  }

  /** Hit k of text i has its own record. */
  ghost predicate LoggedAt(scans: seq<TextScan>, log: seq<Record>, i: nat, k: nat)
    requires GoodScans(scans) && i < |scans| && k < |scans[i].hits|
  {
    var n := HitsUpTo(scans, i) + k;
    n < |log| && Logs(scans[i], i, scans[i].hits[k], log[n])
  }

  /** One record for each hit, texts in order and hits in order within a text. */
  ghost predicate LogsAllHits(scans: seq<TextScan>, log: seq<Record>)
    requires GoodScans(scans)
  {
    && |log| == HitsUpTo(scans, |scans|)
    && forall i, k :: 0 <= i < |scans| && 0 <= k < |scans[i].hits| ==> LoggedAt(scans, log, i, k)
  }

  lemma {:induction false} RecordsAt(s: TextScan, source: nat, hits: seq<Hit>, k: nat)
    requires GoodScan(s) && k < |hits|
    ensures |RecordsOf(source, s.offsets, hits)| == |hits| && Logs(s, source, hits[k], RecordsOf(source, s.offsets, hits)[k])
    decreases |hits|
  {
    RecordsSize(source, s.offsets, hits);
    if k < |hits| - 1 {
      RecordsAt(s, source, hits[..|hits| - 1], k);
    } else {
      DefangedIffOverlap(s.offsets, hits[k].start, hits[k].end);
    }
  }

  lemma {:induction false} RecordsSize(source: nat, o: Offsets, hits: seq<Hit>)
    requires Ordered(o.subs) && Ordered(o.defangs)
    ensures |RecordsOf(source, o, hits)| == |hits|
  {
    if hits != [] {
      RecordsSize(source, o, hits[..|hits| - 1]);
    }
  }

  lemma {:induction false} HitsUpToPrefix(scans: seq<TextScan>, i: nat, n: nat)
    requires n <= i <= |scans|
    ensures HitsUpTo(scans[..i], n) == HitsUpTo(scans, n)
  {
    if n > 0 {
      HitsUpToPrefix(scans, i, n - 1);
    }
  }

  lemma LoggedStays(front: seq<TextScan>, last: TextScan, log: seq<Record>, more: seq<Record>, i: nat, k: nat)
    requires GoodScans(front) && GoodScan(last) && i < |front| && k < |front[i].hits| && LoggedAt(front, log, i, k)
    ensures GoodScans(front + [last]) && LoggedAt(front + [last], log + more, i, k)
  {
    GoodJoin(front, last);
    var scans := front + [last];
    assert scans[..|front|] == front;
    HitsUpToPrefix(scans, |front|, i);
  }

  lemma LoggedLast(front: seq<TextScan>, last: TextScan, log: seq<Record>, more: seq<Record>, k: nat)
    requires GoodScans(front) && GoodScan(last) && |log| == HitsUpTo(front, |front|) && |more| == |last.hits|
    requires k < |more| && Logs(last, |front|, last.hits[k], more[k])
    ensures GoodScans(front + [last]) && LoggedAt(front + [last], log + more, |front|, k)
  {
    GoodJoin(front, last);
    var scans := front + [last];
    assert scans[..|front|] == front;
    HitsUpToPrefix(scans, |front|, |front|);
  }

  lemma GoodJoin(front: seq<TextScan>, last: TextScan)
    requires GoodScans(front) && GoodScan(last)
    ensures GoodScans(front + [last])
  {
  }

  /** The log has exactly the hits of all texts. */
  lemma {:induction false} LogExact(scans: seq<TextScan>)
    requires GoodScans(scans)
    ensures LogsAllHits(scans, LogOf(scans))
  {
    if scans != [] {
      var n := |scans| - 1;
      var front, last := scans[..n], scans[n];
      GoodPrefix(scans, n);
      assert GoodScan(last) && scans == front + [last];
      LogExact(front);
      RecordsSize(n, last.offsets, last.hits);
      forall k | 0 <= k < |last.hits|
        ensures Logs(last, n, last.hits[k], RecordsOf(n, last.offsets, last.hits)[k])
      {
        RecordsAt(last, n, last.hits, k);
      }
      LogsJoin(front, last, LogOf(front), RecordsOf(n, last.offsets, last.hits));
    }
  }

  lemma LogsJoin(front: seq<TextScan>, last: TextScan, log: seq<Record>, more: seq<Record>)
    requires GoodScans(front) && GoodScan(last) && LogsAllHits(front, log) && |more| == |last.hits|
    requires forall k :: 0 <= k < |more| ==> Logs(last, |front|, last.hits[k], more[k])
    ensures GoodScans(front + [last]) && LogsAllHits(front + [last], log + more)
  {
    GoodJoin(front, last);
    var scans := front + [last];
    assert scans[..|front|] == front;
    HitsUpToPrefix(scans, |front|, |front|);
    forall i, k | 0 <= i < |scans| && 0 <= k < |scans[i].hits|
      ensures LoggedAt(scans, log + more, i, k)
    {
      if i < |front| {
        assert LoggedAt(front, log, i, k);
        LoggedStays(front, last, log, more, i, k);
      } else {
        LoggedLast(front, last, log, more, k);
      }
    }
  }

  /** The place of each type in the alphabetical order of their names. */
  function Rank(t: ObsType): nat {
    match t
    case CommandLine => 0
    case DomainName => 1
    case EmailAddr => 2
    case FileHash => 3
    case IpAddr => 4
    case Url => 5
  }

  /** By type, and within a type by value, compared at the first difference. */
  ghost predicate ByTypeAndValue(candidates: seq<Candidate>) {
    forall i, j :: 0 <= i < j < |candidates| ==> InOrder(candidates[i].key, candidates[j].key)
  }

  ghost predicate InOrder(a: Key, b: Key) {
    Rank(a.typ) < Rank(b.typ) || (a.typ == b.typ && exists n: nat :: DiffersBelowAt(a.value, b.value, n))
  }

  lemma NamesRank(a: ObsType, b: ObsType)
    ensures StringLess(TypeName(a), TypeName(b)) ==> Rank(a) < Rank(b)
  {
    var x, y := TypeName(a), TypeName(b);
    StringLessIrreflexive(x);
    assert a != b ==> x[0] != y[0] && (x[0] < y[0] <==> Rank(a) < Rank(b));
  }

  lemma SortedIsInOrder(candidates: seq<Candidate>)
    requires Sorting.Sorted(candidates, CandidateLe)
    requires forall i, j :: 0 <= i < j < |candidates| ==> candidates[i].key != candidates[j].key
    ensures ByTypeAndValue(candidates)
  {
    forall i, j | 0 <= i < j < |candidates|
      ensures InOrder(candidates[i].key, candidates[j].key)
    {
      var a, b := candidates[i].key, candidates[j].key;
      assert CandidateLe(candidates[i], candidates[j]) && a != b;
      NamesRank(a.typ, b.typ);
      StringLessTotal(a.value, b.value);
      StringLessIff(a.value, b.value);
    }
  }

  /** Hit k of text i is one of this key. */
  ghost predicate IsHitOf(scans: seq<TextScan>, i: nat, k: nat, key: Key) {
    i < |scans| && k < |scans[i].hits| && scans[i].hits[k].typ == key.typ && scans[i].hits[k].value == key.value
  }

  /** The verdict of a candidate is that of a hit of its key, and right on the text that was scanned. */
  ghost predicate VerdictOfHit(lib: ScanLib, scans: seq<TextScan>, c: Candidate) {
    exists i: nat, k: nat :: IsHitOf(scans, i, k, c.key) && GivesVerdict(lib, scans[i], scans[i].hits[k], c)
  }

  ghost predicate GivesVerdict(lib: ScanLib, s: TextScan, hit: Hit, c: Candidate) {
    c.valid == hit.valid && c.warnings == hit.warnings && HasVerdict(lib, s.scanned, s.offsets, hit)
  }

  lemma {:induction false} HitAtPlace(scans: seq<TextScan>, m: nat, n: nat) returns (i: nat, k: nat)
    requires m <= |scans| && n < HitsUpTo(scans, m)
    ensures i < m && k < |scans[i].hits| && n == HitsUpTo(scans, i) + k
  {
    if n < HitsUpTo(scans, m - 1) {
      i, k := HitAtPlace(scans, m - 1, n);
    } else {
      i, k := m - 1, n - HitsUpTo(scans, m - 1);
    }
  }

  lemma HitVerdictIn(lib: ExtractLib, texts: seq<string>, scans: seq<TextScan>, i: nat, hit: Hit)
    requires ExtractLaws(lib) && AllScanned(lib, texts, scans) && i < |scans| && hit in scans[i].hits
    ensures HasVerdict(lib.scan, scans[i].scanned, scans[i].offsets, hit)
  {
    assert ScanAt(lib, texts, scans, i);
  }

  lemma LoggedHit(scans: seq<TextScan>, log: seq<Record>, r: Record) returns (i: nat, k: nat)
    requires GoodScans(scans) && LogsAllHits(scans, log) && r in log
    ensures i < |scans| && k < |scans[i].hits| && GoodScan(scans[i]) && Logs(scans[i], i, scans[i].hits[k], r)
  {
    var n :| 0 <= n < |log| && log[n] == r;
    i, k := HitAtPlace(scans, |scans|, n);
    assert LoggedAt(scans, log, i, k);
  }

  lemma CandidateVerdict(lib: ExtractLib, texts: seq<string>, scans: seq<TextScan>, log: seq<Record>, c: Candidate)
    requires ExtractLaws(lib) && GoodScans(scans) && AllScanned(lib, texts, scans)
    requires LogsAllHits(scans, log) && Describes(scans, log, c)
    ensures VerdictOfHit(lib.scan, scans, c)
  {
    var r :| IsFirst(log, r) && r.key == c.key && c.valid == r.valid && c.warnings == r.warnings;
    var i, k := LoggedHit(scans, log, r);
    var hit := scans[i].hits[k];
    HitVerdictIn(lib, texts, scans, i, hit);
    assert IsHitOf(scans, i, k, c.key) && GivesVerdict(lib.scan, scans[i], hit, c);
  }

  ghost predicate HasCandidate(candidates: seq<Candidate>, k: Key) {
    exists c :: c in candidates && c.key == k
  }

  /** No hit of a dropped key is earlier than the earliest hit of a kept one. */
  ghost predicate KeptAreEarliest(log: seq<Record>, candidates: seq<Candidate>) {
    forall c, r :: c in candidates && r in log && !HasCandidate(candidates, r.key) ==>
      exists e :: e in log && e.key == c.key && NotBehind(e.position, r.position)
  }

  /** The final list is the chosen keys' candidates, reordered. */
  ghost predicate Finished(scans: seq<TextScan>, log: seq<Record>, chosen: seq<Key>, candidates: seq<Candidate>)
  {
    var m := AccumulateAll(log);
    && (forall k :: k in chosen ==> k in m && WellPlaced(scans, m[k].earliest))
    && multiset(candidates) == multiset(CandidatesOf(scans, chosen, m))
  }

  lemma AllWellPlaced(scans: seq<TextScan>, k: Key)
    requires GoodScans(scans)
    ensures k in AccumulateAll(LogOf(scans)) ==> WellPlaced(scans, AccumulateAll(LogOf(scans))[k].earliest)
  {
    LogWellPlaced(scans);
    AccumulateAllMeans(LogOf(scans), k);
  }

  lemma FinishedMember(scans: seq<TextScan>, log: seq<Record>, chosen: seq<Key>, candidates: seq<Candidate>, c: Candidate)
    requires Finished(scans, log, chosen, candidates) && c in candidates
    ensures c.key in chosen && c.key in AccumulateAll(log) && WellPlaced(scans, AccumulateAll(log)[c.key].earliest)
    ensures c == CandidateOf(scans, c.key, AccumulateAll(log)[c.key]) && Describes(scans, log, c)
  {
    var m := AccumulateAll(log);
    assert c in multiset(CandidatesOf(scans, chosen, m));
    var i :| 0 <= i < |chosen| && CandidatesOf(scans, chosen, m)[i] == c;
    CandidateAt(scans, chosen, m, i);
    AccumulateAllMeans(log, c.key);
    CandidateDescribes(scans, log, c.key, m[c.key]);
  }

  lemma FinishedCovers(scans: seq<TextScan>, log: seq<Record>, chosen: seq<Key>, candidates: seq<Candidate>, k: Key)
    requires Finished(scans, log, chosen, candidates) && k in chosen
    ensures HasCandidate(candidates, k)
  {
    var m := AccumulateAll(log);
    var i :| 0 <= i < |chosen| && chosen[i] == k;
    CandidateAt(scans, chosen, m, i);
    var c := CandidatesOf(scans, chosen, m)[i];
    assert c in multiset(candidates) && c.key == k;
  }

  lemma FinishedKeysDistinct(scans: seq<TextScan>, log: seq<Record>, chosen: seq<Key>, candidates: seq<Candidate>)
    requires Finished(scans, log, chosen, candidates) && Sorting.Distinct(chosen)
    ensures |candidates| == |chosen|
    ensures forall i, j :: 0 <= i < j < |candidates| ==> candidates[i].key != candidates[j].key
  {
    var m := AccumulateAll(log);
    var before := CandidatesOf(scans, chosen, m);
    assert |candidates| == |multiset(candidates)| == |multiset(before)| == |before|;
    assert Sorting.Distinct(before) by {
      forall i, j | 0 <= i < j < |before|
        ensures before[i] != before[j]
      {
        CandidateAt(scans, chosen, m, i);
        CandidateAt(scans, chosen, m, j);
        assert chosen[i] != chosen[j];
      }
    }
    Sorting.MultisetDistinct(before, candidates);
    forall i, j | 0 <= i < j < |candidates|
      ensures candidates[i].key != candidates[j].key
    {
      FinishedMember(scans, log, chosen, candidates, candidates[i]);
      FinishedMember(scans, log, chosen, candidates, candidates[j]);
    }
  }

  lemma FinishedEarliest(scans: seq<TextScan>, log: seq<Record>, chosen: seq<Key>, candidates: seq<Candidate>)
    requires Finished(scans, log, chosen, candidates) && Chosen(KeyOrder(log), AccumulateAll(log), chosen)
    ensures KeptAreEarliest(log, candidates)
  {
    var m := AccumulateAll(log);
    forall c, r | c in candidates && r in log && !HasCandidate(candidates, r.key)
      ensures exists e :: e in log && e.key == c.key && NotBehind(e.position, r.position)
    {
      FinishedMember(scans, log, chosen, candidates, c);
      KeyInLog(log, r);
      if r.key in chosen {
        FinishedCovers(scans, log, chosen, candidates, r.key);
      }
      AccumulateAllMeans(log, r.key);
      AccumulateAllMeans(log, c.key);
      var e := m[c.key].earliest;
      assert !Earlier(m[r.key].earliest.position, e.position) && NotBehind(m[r.key].earliest.position, r.position);
      assert e in log && e.key == c.key && NotBehind(e.position, r.position);
    }
  }

  lemma KeyInLog(log: seq<Record>, r: Record)
    requires r in log
    ensures r.key in AccumulateAll(log) && r.key in KeyOrder(log)
  {
    CountKeyZero(log, r.key);
    AccumulateAllMeans(log, r.key);
    KeyOrderExact(log);
  }

  lemma FinishedAll(scans: seq<TextScan>, log: seq<Record>, chosen: seq<Key>, candidates: seq<Candidate>)
    requires Finished(scans, log, chosen, candidates) && chosen == KeyOrder(log)
    ensures forall r :: r in log ==> HasCandidate(candidates, r.key)
    ensures SumOccurrences(candidates) == |log|
  {
    forall r | r in log
      ensures HasCandidate(candidates, r.key)
    {
      KeyInLog(log, r);
      FinishedCovers(scans, log, chosen, candidates, r.key);
    }
    TotalIsLog(log);
    CandidatesMeaning(scans, chosen, AccumulateAll(log));
    SumOfPermutation(candidates, CandidatesOf(scans, chosen, AccumulateAll(log)));
  }

  /** At most MAX_CANDIDATES keys, the earliest when there are more. */
  method ChooseKeys(keys: seq<Key>, m: map<Key, Acc>) returns (chosen: seq<Key>, cut: bool)
    requires Sorting.Distinct(keys) && forall k :: k in keys ==> k in m
    ensures Chosen(keys, m, chosen) && cut == (|keys| > MAX_CANDIDATES)
  {
    if |keys| > MAX_CANDIDATES {
      EarliestChosen(keys, m);
      return KeysOf(Sorting.Sort(EntriesOf(keys, m), EntryLe)[..MAX_CANDIDATES]), true;
    }
    return keys, false;
  }

  method BuildCandidates(scans: seq<TextScan>, keys: seq<Key>, m: map<Key, Acc>) returns (candidates: seq<Candidate>)
    requires forall k :: k in keys ==> k in m && WellPlaced(scans, m[k].earliest)
    ensures candidates == CandidatesOf(scans, keys, m)
  {
    candidates := [];
    for i := 0 to |keys|
      invariant candidates == CandidatesOf(scans, keys[..i], m)
    {
      assert keys[..i + 1][..i] == keys[..i] && keys[i] in keys;
      candidates := candidates + [CandidateOf(scans, keys[i], m[keys[i]])];
    }
    assert keys[..|keys|] == keys;
  }

  function AtMost(n: nat, limit: nat): nat {
    if n > limit then limit else n
  }

  /**
   * The hits of the phases on every text within the budget, each accounted for once. Exactly the two limits set
   * truncated, and without it every text was scanned whole and every hit is counted under its candidate.
   */
  method Extract(lib: ExtractLib, texts: seq<string>) returns (candidates: seq<Candidate>, truncated: bool, scans: seq<TextScan>)
    requires ExtractLaws(lib)
    ensures |scans| == |texts| && GoodScans(scans) && TotalLength(scans) <= MAX_SCAN_CHARS
    ensures AllScanned(lib, texts, scans)
    ensures truncated <==> SomeCut(lib, texts, scans) || |KeyOrder(LogOf(scans))| > MAX_CANDIDATES
    ensures |candidates| == AtMost(|KeyOrder(LogOf(scans))|, MAX_CANDIDATES) && Sorting.Sorted(candidates, CandidateLe)
    ensures forall i, j :: 0 <= i < j < |candidates| ==> candidates[i].key != candidates[j].key
    ensures ByTypeAndValue(candidates) && LogsAllHits(scans, LogOf(scans))
    ensures forall c :: c in candidates ==> Describes(scans, LogOf(scans), c) && VerdictOfHit(lib.scan, scans, c)
    ensures KeptAreEarliest(LogOf(scans), candidates)
    ensures !truncated ==> AllWhollyScanned(lib, texts, scans)
    ensures !truncated ==> forall r :: r in LogOf(scans) ==> HasCandidate(candidates, r.key)
    ensures !truncated ==> SumOccurrences(candidates) == |LogOf(scans)|
  {
    truncated, scans := ScanAll(lib, texts);
    if !truncated {
      UncutAreWhole(lib, texts, scans);
    }
    var m, order := AccumulateScans(scans);
    ghost var log := LogOf(scans);
    KeyOrderExact(log);
    var chosen, cut := ChooseKeys(order, m);
    if cut {
      truncated := true;
    }
    forall k | k in chosen
      ensures k in m && WellPlaced(scans, m[k].earliest)
    {
      AllWellPlaced(scans, k);
    }
    candidates := BuildCandidates(scans, chosen, m);
    CandidateLeTotal();
    Sorting.SortSpec(candidates, CandidateLe);
    candidates := Sorting.Sort(candidates, CandidateLe);
    ExtractAccounts(scans, log, order, chosen, candidates);
    SortedIsInOrder(candidates);
    LogExact(scans);
    forall c | c in candidates
      ensures VerdictOfHit(lib.scan, scans, c)
    {
      CandidateVerdict(lib, texts, scans, log, c);
    }
  }

  lemma ExtractAccounts(scans: seq<TextScan>, log: seq<Record>, order: seq<Key>, chosen: seq<Key>, candidates: seq<Candidate>)
    requires Finished(scans, log, chosen, candidates) && order == KeyOrder(log) && Chosen(order, AccumulateAll(log), chosen)
    ensures |candidates| == AtMost(|order|, MAX_CANDIDATES) && KeptAreEarliest(log, candidates)
    ensures forall i, j :: 0 <= i < j < |candidates| ==> candidates[i].key != candidates[j].key
    ensures forall c :: c in candidates ==> Describes(scans, log, c)
    ensures |order| <= MAX_CANDIDATES ==>
      (forall r :: r in log ==> HasCandidate(candidates, r.key)) && SumOccurrences(candidates) == |log|
  {
    FinishedKeysDistinct(scans, log, chosen, candidates);
    FinishedEarliest(scans, log, chosen, candidates);
    forall c | c in candidates
      ensures Describes(scans, log, c)
    {
      FinishedMember(scans, log, chosen, candidates, c);
    }
    if |order| <= MAX_CANDIDATES {
      FinishedAll(scans, log, chosen, candidates);
    }
  }
}
