/** The six phases of a scan, each run on text from which the earlier finds are masked out. */
module ScanPhases {
  import opened Wrappers
  import opened Observables
  import opened OffsetMap
  import opened HostSpans
  import opened UrlNormal
  import Sorting

  const MAX_VALUE_LENGTH := 2048
  const URL_TRAILING_PUNCTUATION := ".,;:!?)]}>'\""

  datatype Hit = Hit(typ: ObsType, value: string, valid: bool, warnings: seq<string>, start: nat, end: nat)

  datatype Phase = Urls | Emails | Ipv6 | Ipv4 | Hashes | Domains

  /** A parsed address: its canonical text, and whether it is outside the public ranges. */
  datatype Address = Address(text: string, nonPublic: bool)

  /** The regex of each phase, the character tables, and the address parsers. */
  datatype ScanLib = ScanLib(
    host: HostLib,
    find: (Phase, string) -> seq<Span>,
    isWord: char -> bool,
    readV4: string -> Option<Address>,
    readV6: string -> Option<Address>)

  ghost predicate SpaceFree(text: string, s: Span) {
    s.end <= |text| && forall i :: s.start <= i < s.end ==> text[i] != ' '
  }

  /** Every regex returns matches of its text, and no match contains a space. */
  ghost predicate Searches(lib: ScanLib) {
    forall p, text :: Matches(lib.find(p, text), |text|) && forall m :: m in lib.find(p, text) ==> SpaceFree(text, m)
  }

  // ── One match of each phase ───────────────────────────────────────────

  /** `text[lo..hi].rstrip(chars)`: where the stripped text ends. */
  function StripEnd(text: string, chars: string, lo: nat, hi: nat): (end: nat)
    requires lo <= hi <= |text|
    ensures lo <= end <= hi
    decreases hi
  {
    if lo < hi && text[hi - 1] in chars then StripEnd(text, chars, lo, hi - 1) else hi
  }

  /** `text[lo..hi].lstrip(chars)`: where the stripped text starts. */
  function StripStart(text: string, chars: string, lo: nat, hi: nat): (start: nat)
    requires lo <= hi <= |text|
    ensures lo <= start <= hi
    decreases hi - lo
  {
    if lo < hi && text[lo] in chars then StripStart(text, chars, lo + 1, hi) else lo
  }

  function UrlHit(lib: ScanLib, text: string, m: Span): (hit: Option<Hit>)
    requires m.start < m.end <= |text|
    ensures hit.Some? ==> m.start <= hit.value.start <= hit.value.end <= m.end
  {
    var end := StripEnd(text, URL_TRAILING_PUNCTUATION, m.start, m.end);
    var normalized := NormalizeUrl(lib.host, text[m.start..end]);
    if normalized.None? then None
    else if |normalized.value| > MAX_VALUE_LENGTH then
      Some(Hit(Url, normalized.value[..MAX_VALUE_LENGTH], false, ["value_too_long"], m.start, end))
    else Some(Hit(Url, normalized.value, true, [], m.start, end))
  }

  predicate IsHostCh(lib: ScanLib, c: char) {
    lib.isWord(c) || c in ".-"
  }

  function EmailHit(lib: ScanLib, text: string, m: Span): (hit: Option<Hit>)
    requires m.start < m.end <= |text|
    ensures hit.Some? ==> m.start <= hit.value.start <= hit.value.end <= m.end
  {
    if m.end < |text| && IsHostCh(lib, text[m.end]) then None
    else if m.start > 0 && lib.isWord(text[m.start - 1]) then None
    else
      var at := FindFirst(text, "@", m.start, m.end);
      if at.None? then None
      else
        var start := StripStart(text, ".", m.start, at.value);
        var end := StripEnd(text, ".", at.value + 1, m.end);
        if start == at.value || text[at.value - 1] == '.' then None
        else
          var encoded := IdnaHost(lib.host, text[at.value + 1..end]);
          var domain := if encoded.Some? then NormalizeDomain(lib.host, encoded.value) else None;
          if domain.None? then None
          else Some(Hit(EmailAddr, text[start..at.value] + "@" + domain.value, true, [], start, end))
  }

  function Count(s: string, c: char): nat {
    if s == "" then 0 else Count(s[..|s| - 1], c) + (if s[|s| - 1] == c then 1 else 0)
  }

  function IpWarnings(a: Address): seq<string> {
    if a.nonPublic then ["non_public_ip"] else []
  }

  function Ipv6Hit(lib: ScanLib, text: string, m: Span): (hit: Option<Hit>)
    requires m.start < m.end <= |text|
    ensures hit.Some? ==> m.start <= hit.value.start <= hit.value.end <= m.end
  {
    var end := StripEnd(text, ".", m.start, m.end);
    var token := text[m.start..end];
    if Count(token, ':') < 2 || forall i :: 0 <= i < |token| ==> !lib.host.isDigit(token[i]) then None
    else
      var address := lib.readV6(token);
      if address.None? then None
      else Some(Hit(IpAddr, address.value.text, true, IpWarnings(address.value), m.start, end))
  }

  function Ipv4Hit(lib: ScanLib, text: string, m: Span): (hit: Option<Hit>)
    requires m.start < m.end <= |text|
    ensures hit.Some? ==> m.start <= hit.value.start <= hit.value.end <= m.end
  {
    var token := text[m.start..m.end];
    var address := lib.readV4(token);
    if address.None? then Some(Hit(IpAddr, token, false, ["invalid_ip"], m.start, m.end))
    else Some(Hit(IpAddr, address.value.text, true, IpWarnings(address.value), m.start, m.end))
  }

  function HashHit(lib: ScanLib, text: string, m: Span): (hit: Option<Hit>)
    requires m.start < m.end <= |text|
    ensures hit.Some? ==> m.start <= hit.value.start <= hit.value.end <= m.end
  {
    var token := text[m.start..m.end];
    if |token| != 32 && |token| != 40 && |token| != 64 then None
    else
      var value := lib.host.lower(token);
      if value != "" && forall i :: 0 <= i < |value| ==> value[i] == value[0] then
        Some(Hit(FileHash, value, false, ["invalid_hash"], m.start, m.end))
      else
        var warnings := if |token| == 32 then ["hash_md5"] else if |token| == 40 then ["hash_sha1"] else [];
        Some(Hit(FileHash, value, true, warnings, m.start, m.end))
  }

  const FILE_EXTENSIONS: set<string> := {
    "exe", "dll", "pdf", "doc", "docx", "xls", "xlsx", "zip", "rar", "js",
    "ps1", "bat", "sh", "py", "txt", "log", "png", "jpg", "gif"
  }

  /** The hit for a run whose IDNA form is known. */
  function NameHit(lib: ScanLib, o: Offsets, name: string, start: nat, end: nat): (hit: Option<Hit>)
    requires Ordered(o.defangs)
    ensures hit.Some? ==> hit.value.start == start && hit.value.end == end
  {
    var labels := Labels(name);
    var tld := lib.host.lower(labels[|labels| - 1]);
    var fileLike := tld in FILE_EXTENSIONS;
    if |labels| < 2 || !TldShapeOk(tld) then None
    else if fileLike && !o.Defanged(start, end) then None
    else
      var domain := NormalizeDomain(lib.host, name);
      if domain.None? then
        var low := lib.host.lower(name);
        Some(Hit(DomainName, if |low| > MAX_VALUE_LENGTH then low[..MAX_VALUE_LENGTH] else low,
          false, ["invalid_domain"], start, end))
      else Some(Hit(DomainName, domain.value, true, if fileLike then ["looks_like_filename"] else [], start, end))
  }

  function DomainHit(lib: ScanLib, text: string, o: Offsets, m: Span): (hit: Option<Hit>)
    requires m.start < m.end <= |text| && Ordered(o.defangs)
    ensures hit.Some? ==> m.start <= hit.value.start <= hit.value.end <= m.end
  {
    var start := StripStart(text, ".", m.start, m.end);
    var end := StripEnd(text, ".", start, m.end);
    var run := text[start..end];
    if run == "" || '_' in run then None
    else
      var name := IdnaHost(lib.host, run);
      if name.None? then None else NameHit(lib, o, name.value, start, end)
  }

  function MatchHit(lib: ScanLib, p: Phase, text: string, o: Offsets, m: Span): (hit: Option<Hit>)
    requires m.start < m.end <= |text| && Ordered(o.defangs)
    ensures hit.Some? ==> m.start <= hit.value.start <= hit.value.end <= m.end
  {
    match p
    case Urls => UrlHit(lib, text, m)
    case Emails => EmailHit(lib, text, m)
    case Ipv6 => Ipv6Hit(lib, text, m)
    case Ipv4 => Ipv4Hit(lib, text, m)
    case Hashes => HashHit(lib, text, m)
    case Domains => DomainHit(lib, text, o, m)
  }

  lemma NoUrlWithoutSeparator(lib: ScanLib)
    ensures NormalizeUrl(lib.host, "") == None
  {
  }

  /** No phase reports an empty range. */
  lemma HitNotEmpty(lib: ScanLib, p: Phase, text: string, o: Offsets, m: Span)
    requires m.start < m.end <= |text| && Ordered(o.defangs)
    requires MatchHit(lib, p, text, o, m).Some?
    ensures MatchHit(lib, p, text, o, m).value.start < MatchHit(lib, p, text, o, m).value.end
  {
    match p
    case Urls =>
      NoUrlWithoutSeparator(lib);
      var raw := text[m.start..StripEnd(text, URL_TRAILING_PUNCTUATION, m.start, m.end)];
      assert NormalizeUrl(lib.host, raw).Some?;
    case Ipv6 =>
      var token := text[m.start..StripEnd(text, ".", m.start, m.end)];
      assert token == "" ==> Count(token, ':') == 0;
    case _ =>
  }

  // ── A whole phase ─────────────────────────────────────────────────────

  ghost predicate InRange(matches: seq<Span>, length: nat) {
    forall i :: 0 <= i < |matches| ==> matches[i].start < matches[i].end <= length
  }

  /** The hits of the matches, in order. */
  function HitsOf(lib: ScanLib, p: Phase, text: string, o: Offsets, matches: seq<Span>): seq<Hit>
    requires InRange(matches, |text|) && Ordered(o.defangs)
  {
    if matches == [] then []
    else
      var hit := MatchHit(lib, p, text, o, matches[|matches| - 1]);
      HitsOf(lib, p, text, o, matches[..|matches| - 1]) + (if hit.Some? then [hit.value] else [])
  }

  function RangesOf(hits: seq<Hit>): (spans: seq<Span>)
    ensures |spans| == |hits|
    ensures forall k :: 0 <= k < |hits| ==> spans[k] == Span(hits[k].start, hits[k].end)
  {
    if hits == [] then []
    else RangesOf(hits[..|hits| - 1]) + [Span(hits[|hits| - 1].start, hits[|hits| - 1].end)]
  }

  /** One phase: its hits, and the spans to mask. */
  method RunPhase(lib: ScanLib, p: Phase, text: string, o: Offsets) returns (hits: seq<Hit>, spans: seq<Span>)
    requires Searches(lib) && Ordered(o.defangs)
    ensures InRange(lib.find(p, text), |text|)
    ensures hits == HitsOf(lib, p, text, o, lib.find(p, text)) && spans == RangesOf(hits)
  {
    var matches := lib.find(p, text);
    assert Matches(lib.find(p, text), |text|);
    hits, spans := [], [];
    for i := 0 to |matches|
      invariant hits == HitsOf(lib, p, text, o, matches[..i]) && spans == RangesOf(hits)
    {
      var hit := MatchHit(lib, p, text, o, matches[i]);
      assert matches[..i + 1][..i] == matches[..i];
      if hit.Some? {
        assert (hits + [hit.value])[..|hits|] == hits;
        hits := hits + [hit.value];
        spans := spans + [Span(hit.value.start, hit.value.end)];
      }
    }
    assert matches[..|matches|] == matches;
  }

  lemma {:induction false} HitOrigin(lib: ScanLib, p: Phase, text: string, o: Offsets, matches: seq<Span>, k: nat) returns (m: nat)
    requires InRange(matches, |text|) && Ordered(o.defangs) && k < |HitsOf(lib, p, text, o, matches)|
    ensures m < |matches| && MatchHit(lib, p, text, o, matches[m]) == Some(HitsOf(lib, p, text, o, matches)[k])
    decreases |matches|
  {
    var front := matches[..|matches| - 1];
    if k < |HitsOf(lib, p, text, o, front)| {
      m := HitOrigin(lib, p, text, o, front, k);
    } else {
      m := |matches| - 1;
    }
  }

  predicate HitsApart(a: Hit, b: Hit) {
    a.end <= b.start || b.end <= a.start
  }

  ghost predicate AllApart(hits: seq<Hit>) {
    forall i, j :: 0 <= i < j < |hits| ==> HitsApart(hits[i], hits[j])
  }

  lemma {:induction false} PhaseHitsApart(lib: ScanLib, p: Phase, text: string, o: Offsets, matches: seq<Span>)
    requires Matches(matches, |text|) && Ordered(o.defangs)
    ensures AllApart(HitsOf(lib, p, text, o, matches))
    decreases |matches|
  {
    if matches != [] {
      var front, last := matches[..|matches| - 1], matches[|matches| - 1];
      PhaseHitsApart(lib, p, text, o, front);
      var hits := HitsOf(lib, p, text, o, front);
      forall k | 0 <= k < |hits|
        ensures hits[k].end <= last.start
      {
        var m := HitOrigin(lib, p, text, o, front, k);
        assert matches[m].end <= last.start;
      }
    }
  }

  /** A hit of a phase covers a nonempty range without spaces. */
  lemma PhaseHitSpaceFree(lib: ScanLib, p: Phase, text: string, o: Offsets, k: nat)
    requires Searches(lib) && Ordered(o.defangs) && InRange(lib.find(p, text), |text|)
    requires k < |HitsOf(lib, p, text, o, lib.find(p, text))|
    ensures var hit := HitsOf(lib, p, text, o, lib.find(p, text))[k];
      hit.start < hit.end && SpaceFree(text, Span(hit.start, hit.end))
  {
    var matches := lib.find(p, text);
    var m := HitOrigin(lib, p, text, o, matches, k);
    assert matches[m] in matches && SpaceFree(text, matches[m]);
    HitNotEmpty(lib, p, text, o, matches[m]);
  }

  // ── Masking ───────────────────────────────────────────────────────────

  function Spaces(n: nat): (s: string)
    ensures |s| == n
  {
    seq(n, _ => ' ')
  }

  ghost predicate MaskedAt(text: string, spans: seq<Span>, masked: string, i: nat)
    requires i < |text| && i < |masked|
  {
    masked[i] == if Covered(spans, i) then ' ' else text[i]
  }

  /** The same text with a space at every covered position. */
  ghost predicate IsMasked(text: string, spans: seq<Span>, masked: string) {
    |masked| == |text| && forall i :: 0 <= i < |text| ==> MaskedAt(text, spans, masked, i)
  }

  /** After the first i spans in order; the next one reaches back over no uncovered position. */
  ghost predicate MaskedSoFar(text: string, ordered: seq<Span>, i: nat, parts: string, last: nat)
    requires i <= |ordered|
  {
    MaskedUpTo(text, ordered[..i], parts, last, if i < |ordered| then ordered[i].start else |text|)
  }

  lemma CoveredPrefix(spans: seq<Span>, i: nat)
    requires i < |spans|
    ensures forall p :: Covered(spans[..i + 1], p) <==> Covered(spans[..i], p) || spans[i].start <= p < spans[i].end
  {
    assert spans[..i + 1] == spans[..i] + [spans[i]];
    CoveredAppend(spans[..i], spans[i]);
  }

  /** now covers what seen covers, and s. */
  ghost predicate Adds(seen: seq<Span>, s: Span, now: seq<Span>) {
    forall p :: Covered(now, p) <==> Covered(seen, p) || s.start <= p < s.end
  }

  /** Written up to last, nothing covered beyond it, and what was written from `from` on was covered. */
  ghost predicate MaskedUpTo(text: string, seen: seq<Span>, parts: string, last: nat, from: nat) {
    && last <= |text| && |parts| == last
    && (forall k :: 0 <= k < last ==> MaskedAt(text, seen, parts, k))
    && (forall p :: Covered(seen, p) ==> p < last)
    && (forall p :: from <= p < last ==> Covered(seen, p))
  }

  lemma MaskSkip(text: string, seen: seq<Span>, s: Span, now: seq<Span>, parts: string, last: nat, from: nat)
    requires MaskedUpTo(text, seen, parts, last, s.start) && Adds(seen, s, now) && s.start <= from
    requires s.end <= last || s.end <= s.start
    ensures MaskedUpTo(text, now, parts, last, from)
  {
    forall k | 0 <= k < last
      ensures MaskedAt(text, now, parts, k)
    {
      assert MaskedAt(text, seen, parts, k);
    }
  }

  lemma MaskAdd(text: string, seen: seq<Span>, s: Span, now: seq<Span>, parts: string, last: nat, start: nat, from: nat)
    requires MaskedUpTo(text, seen, parts, last, s.start) && Adds(seen, s, now) && s.start <= from
    requires start == (if s.start < last then last else s.start) < s.end <= |text|
    ensures MaskedUpTo(text, now, parts + text[last..start] + Spaces(s.end - start), s.end, from)
  {
    var more := parts + text[last..start] + Spaces(s.end - start);
    forall k | 0 <= k < s.end
      ensures MaskedAt(text, now, more, k)
    {
      if k < last {
        assert MaskedAt(text, seen, parts, k);
      }
    }
  }

  lemma MaskStep(text: string, ordered: seq<Span>, i: nat, parts: string, last: nat, start: nat)
    requires Sorting.Sorted(ordered, SpanLe) && i < |ordered| && ordered[i].end <= |text|
    requires MaskedSoFar(text, ordered, i, parts, last)
    requires start == if ordered[i].start < last then last else ordered[i].start
    ensures ordered[i].end <= start ==> MaskedSoFar(text, ordered, i + 1, parts, last)
    ensures ordered[i].end > start ==>
      MaskedSoFar(text, ordered, i + 1, parts + text[last..start] + Spaces(ordered[i].end - start), ordered[i].end)
  {
    var s, seen, now := ordered[i], ordered[..i], ordered[..i + 1];
    CoveredPrefix(ordered, i);
    var from := if i + 1 < |ordered| then ordered[i + 1].start else |text|;
    if i + 1 < |ordered| {
      assert SpanLe(s, ordered[i + 1]);
    }
    if s.end > start {
      MaskAdd(text, seen, s, now, parts, last, start, from);
    } else {
      MaskSkip(text, seen, s, now, parts, last, if s.start <= from then from else s.start);
    }
  }

  method Mask(text: string, spans: seq<Span>) returns (masked: string)
    requires forall i :: 0 <= i < |spans| ==> spans[i].end <= |text|
    ensures IsMasked(text, spans, masked)
  {
    if spans == [] {
      return text;
    }
    var ordered := Sorting.Sort(spans, SpanLe);
    SortedSpansKeep(spans);
    var parts, last := "", 0;
    for i := 0 to |ordered|
      invariant MaskedSoFar(text, ordered, i, parts, last)
    {
      assert ordered[i] in spans;
      var start, end := ordered[i].start, ordered[i].end;
      if start < last {
        start := last;
      }
      MaskStep(text, ordered, i, parts, last, start);
      if end <= start {
        continue;
      }
      parts := parts + text[last..start] + Spaces(end - start);
      last := end;
    }
    MaskFinish(text, spans, ordered, parts, last);
    masked := parts + text[last..];
  }

  lemma MaskFinish(text: string, spans: seq<Span>, ordered: seq<Span>, parts: string, last: nat)
    requires MaskedSoFar(text, ordered, |ordered|, parts, last)
    requires forall p :: Covered(ordered, p) <==> Covered(spans, p)
    ensures IsMasked(text, spans, parts + text[last..])
  {
    assert ordered[..|ordered|] == ordered;
    forall i | 0 <= i < |text|
      ensures MaskedAt(text, spans, parts + text[last..], i)
    {
      if i < last {
        assert MaskedAt(text, ordered[..|ordered|], parts, i);
      }
    }
  }

  // ── The scan ──────────────────────────────────────────────────────────

  /** Every reported range is nonempty, inside the text, and blank in the masked text. */
  ghost predicate Blanked(hits: seq<Hit>, masked: string) {
    forall k :: 0 <= k < |hits| ==> BlankedHit(hits[k], masked)
  }

  ghost predicate BlankedHit(hit: Hit, masked: string) {
    hit.start < hit.end <= |masked| && forall i :: hit.start <= i < hit.end ==> masked[i] == ' '
  }

  lemma BlankAndSpaceFreeApart(a: Hit, b: Hit, masked: string)
    requires BlankedHit(a, masked) && b.start < b.end && SpaceFree(masked, Span(b.start, b.end))
    ensures HitsApart(a, b)
  {
    var p := if a.start < b.start then b.start else a.start;
    assert p < a.end ==> masked[p] == ' ';
    assert p < b.end ==> masked[p] != ' ';
  }

  /** The hits of one phase avoid everything blanked before it. */
  lemma PhaseApartFromBlanked(lib: ScanLib, p: Phase, text: string, o: Offsets, hits: seq<Hit>)
    requires Searches(lib) && Ordered(o.defangs) && InRange(lib.find(p, text), |text|)
    requires AllApart(hits) && Blanked(hits, text)
    ensures AllApart(hits + HitsOf(lib, p, text, o, lib.find(p, text)))
  {
    var more := HitsOf(lib, p, text, o, lib.find(p, text));
    assert Matches(lib.find(p, text), |text|);
    PhaseHitsApart(lib, p, text, o, lib.find(p, text));
    var all := hits + more;
    forall i, j | 0 <= i < j < |all|
      ensures HitsApart(all[i], all[j])
    {
      if i < |hits| <= j {
        assert BlankedHit(hits[i], text);
        PhaseHitSpaceFree(lib, p, text, o, j - |hits|);
        BlankAndSpaceFreeApart(hits[i], more[j - |hits|], text);
      } else if |hits| <= i {
        assert HitsApart(more[i - |hits|], more[j - |hits|]);
      }
    }
  }

  /** Masking a phase's spans keeps the earlier blanks and blanks the phase's hits. */
  lemma MaskKeepsBlanks(lib: ScanLib, p: Phase, text: string, o: Offsets, hits: seq<Hit>, masked: string)
    requires Searches(lib) && Ordered(o.defangs) && InRange(lib.find(p, text), |text|) && Blanked(hits, text)
    requires IsMasked(text, RangesOf(HitsOf(lib, p, text, o, lib.find(p, text))), masked)
    ensures Blanked(hits + HitsOf(lib, p, text, o, lib.find(p, text)), masked)
  {
    var more := HitsOf(lib, p, text, o, lib.find(p, text));
    var spans := RangesOf(more);
    forall k | 0 <= k < |hits + more|
      ensures BlankedHit((hits + more)[k], masked)
    {
      if k < |hits| {
        assert BlankedHit(hits[k], text);
        BlankStays(hits[k], text, spans, masked);
      } else {
        PhaseHitSpaceFree(lib, p, text, o, k - |hits|);
        CoveredIsBlank(more[k - |hits|], text, spans, k - |hits|, masked);
      }
    }
  }

  lemma BlankStays(hit: Hit, text: string, spans: seq<Span>, masked: string)
    requires BlankedHit(hit, text) && IsMasked(text, spans, masked)
    ensures BlankedHit(hit, masked)
  {
    forall i | hit.start <= i < hit.end
      ensures masked[i] == ' '
    {
      assert MaskedAt(text, spans, masked, i);
    }
  }

  lemma CoveredIsBlank(hit: Hit, text: string, spans: seq<Span>, k: nat, masked: string)
    requires k < |spans| && spans[k] == Span(hit.start, hit.end) && hit.start < hit.end <= |text|
    requires IsMasked(text, spans, masked)
    ensures BlankedHit(hit, masked)
  {
    forall i | hit.start <= i < hit.end
      ensures masked[i] == ' '
    {
      assert MaskedAt(text, spans, masked, i) && Covered(spans, i);
    }
  }

  const PHASES := [Urls, Emails, Ipv6, Ipv4, Hashes, Domains]

  /** The text with a space at every covered position. */
  ghost function MaskedText(text: string, spans: seq<Span>): (masked: string)
    ensures IsMasked(text, spans, masked)
  {
    seq(|text|, i requires 0 <= i < |text| => if Covered(spans, i) then ' ' else text[i])
  }

  lemma MaskedOnce(text: string, spans: seq<Span>, masked: string)
    requires IsMasked(text, spans, masked)
    ensures masked == MaskedText(text, spans)
  {
    forall i | 0 <= i < |text|
      ensures masked[i] == MaskedText(text, spans)[i]
    {
      assert MaskedAt(text, spans, masked, i) && MaskedAt(text, spans, MaskedText(text, spans), i);
    }
  }

  /** The hits of one phase on one text. */
  ghost function PhaseHits(lib: ScanLib, p: Phase, text: string, o: Offsets): seq<Hit>
    requires Searches(lib) && Ordered(o.defangs)
  {
    assert Matches(lib.find(p, text), |text|);
    HitsOf(lib, p, text, o, lib.find(p, text))
  }

  /** The hits of the first i phases. */
  ghost function HitsBefore(lib: ScanLib, text: string, o: Offsets, i: nat): seq<Hit>
    requires Searches(lib) && Ordered(o.defangs) && i <= |PHASES|
    decreases i, 0, text
  {
    if i == 0 then []
    else HitsBefore(lib, text, o, i - 1) + PhaseHits(lib, PHASES[i - 1], TextBefore(lib, text, o, i - 1), o)
  }

  /** The text that phase i sees: everything the earlier phases reported is blank. */
  ghost function TextBefore(lib: ScanLib, text: string, o: Offsets, i: nat): string
    requires Searches(lib) && Ordered(o.defangs) && i <= |PHASES|
    decreases i, 1, text
  {
    MaskedText(text, RangesOf(HitsBefore(lib, text, o, i)))
  }

  /** What a scan reports: the hits of the six phases, each on the text that is left to it. */
  ghost function ScanHits(lib: ScanLib, text: string, o: Offsets): seq<Hit>
    requires Searches(lib) && Ordered(o.defangs)
  {
    HitsBefore(lib, text, o, |PHASES|)
  }

  /** hit comes from a match of the phase on the text. */
  ghost predicate MadeBy(lib: ScanLib, p: Phase, text: string, o: Offsets, hit: Hit)
    requires Ordered(o.defangs)
  {
    exists m :: m in lib.find(p, text) && m.start < m.end <= |text| && MatchHit(lib, p, text, o, m) == Some(hit)
  }

  /** hit comes from a match that phase i makes on the text left to it. */
  ghost predicate FoundBy(lib: ScanLib, text: string, o: Offsets, i: nat, hit: Hit)
    requires Searches(lib) && Ordered(o.defangs) && i < |PHASES|
  {
    MadeBy(lib, PHASES[i], TextBefore(lib, text, o, i), o, hit)
  }

  lemma {:induction false} HitsOfExact(lib: ScanLib, p: Phase, text: string, o: Offsets, matches: seq<Span>, hit: Hit)
    requires InRange(matches, |text|) && Ordered(o.defangs)
    ensures hit in HitsOf(lib, p, text, o, matches) <==>
      exists m :: m in matches && m.start < m.end <= |text| && MatchHit(lib, p, text, o, m) == Some(hit)
    decreases |matches|
  {
    if matches != [] {
      var front, last := matches[..|matches| - 1], matches[|matches| - 1];
      assert matches == front + [last];
      HitsOfExact(lib, p, text, o, front, hit);
    }
  }

  lemma PhaseHitsExact(lib: ScanLib, p: Phase, text: string, o: Offsets, hit: Hit)
    requires Searches(lib) && Ordered(o.defangs)
    ensures hit in PhaseHits(lib, p, text, o) <==> MadeBy(lib, p, text, o, hit)
  {
    assert Matches(lib.find(p, text), |text|);
    HitsOfExact(lib, p, text, o, lib.find(p, text), hit);
  }

  /** One of the first n phases makes the hit. */
  ghost predicate FoundBefore(lib: ScanLib, text: string, o: Offsets, n: nat, hit: Hit)
    requires Searches(lib) && Ordered(o.defangs) && n <= |PHASES|
  {
    exists i :: 0 <= i < n && FoundBy(lib, text, o, i, hit)
  }

  lemma FoundBeforeStep(lib: ScanLib, text: string, o: Offsets, n: nat, hit: Hit)
    requires Searches(lib) && Ordered(o.defangs) && n < |PHASES|
    ensures FoundBefore(lib, text, o, n + 1, hit) <==> FoundBefore(lib, text, o, n, hit) || FoundBy(lib, text, o, n, hit)
  {
  }

  lemma HitsBeforeStep(lib: ScanLib, text: string, o: Offsets, n: nat, hit: Hit)
    requires Searches(lib) && Ordered(o.defangs) && n < |PHASES|
    ensures hit in HitsBefore(lib, text, o, n + 1) <==> hit in HitsBefore(lib, text, o, n) || FoundBy(lib, text, o, n, hit)
  {
    PhaseHitsExact(lib, PHASES[n], TextBefore(lib, text, o, n), o, hit);
  }

  /** A scan reports a hit exactly when some phase makes it of a match on the text with all earlier finds blanked. */
  lemma {:induction false} ScanHitsExact(lib: ScanLib, text: string, o: Offsets, n: nat, hit: Hit)
    requires Searches(lib) && Ordered(o.defangs) && n <= |PHASES|
    ensures hit in HitsBefore(lib, text, o, n) <==> FoundBefore(lib, text, o, n, hit)
  {
    if n == 0 {
      assert HitsBefore(lib, text, o, 0) == [];
    } else {
      var m := n - 1;
      ScanHitsExact(lib, text, o, m, hit);
      HitsBeforeStep(lib, text, o, m, hit);
      FoundBeforeStep(lib, text, o, m, hit);
    }
  }

  lemma {:induction false} RangesJoin(a: seq<Hit>, b: seq<Hit>)
    ensures RangesOf(a + b) == RangesOf(a) + RangesOf(b)
  {
  }

  lemma CoveredJoin(a: seq<Span>, b: seq<Span>, p: int)
    ensures Covered(a + b, p) <==> Covered(a, p) || Covered(b, p)
  {
    var all := a + b;
    if i :| 0 <= i < |a| && a[i].start <= p < a[i].end {
      assert all[i] == a[i];
    }
    if i :| 0 <= i < |b| && b[i].start <= p < b[i].end {
      assert all[|a| + i] == b[i];
    }
  }

  /** Masking phase by phase is masking everything found so far at once. */
  lemma MaskTwice(text: string, a: seq<Span>, masked: string, b: seq<Span>, more: string)
    requires IsMasked(text, a, masked) && IsMasked(masked, b, more)
    ensures IsMasked(text, a + b, more)
  {
    forall i | 0 <= i < |text|
      ensures MaskedAt(text, a + b, more, i)
    {
      CoveredJoin(a, b, i);
      assert MaskedAt(text, a, masked, i) && MaskedAt(masked, b, more, i);
    }
  }

  lemma PhaseMasks(lib: ScanLib, text: string, o: Offsets, i: nat, masked: string)
    requires Searches(lib) && Ordered(o.defangs) && i < |PHASES|
    requires IsMasked(TextBefore(lib, text, o, i), RangesOf(PhaseHits(lib, PHASES[i], TextBefore(lib, text, o, i), o)), masked)
    ensures masked == TextBefore(lib, text, o, i + 1)
  {
    var hits := HitsBefore(lib, text, o, i);
    var more := PhaseHits(lib, PHASES[i], TextBefore(lib, text, o, i), o);
    RangesJoin(hits, more);
    MaskTwice(text, RangesOf(hits), TextBefore(lib, text, o, i), RangesOf(more), masked);
    MaskedOnce(text, RangesOf(hits + more), masked);
  }

  // ── What a hit says, and which matches become hits ────────────────────

  /** A recorded defang overlaps the range. */
  ghost predicate TouchesDefang(o: Offsets, start: nat, end: nat) {
    exists k :: 0 <= k < |o.defangs| && o.defangs[k].newStart < end && start < o.defangs[k].newEnd
  }

  /** l is what follows the last dot of a name. */
  ghost predicate IsLastLabel(name: string, l: string) {
    exists d :: 0 <= d < |name| && name[d] == '.' && l == name[d + 1..] && '.' !in l
  }

  /** The name has a dot, its last label could be a top-level domain, and one that is also a file extension was defanged. */
  ghost predicate IsDomainShaped(lib: ScanLib, o: Offsets, name: string, start: nat, end: nat) {
    exists l :: IsLastLabel(name, l) && TldShapeOk(lib.host.lower(l)) &&
      (lib.host.lower(l) in FILE_EXTENSIONS ==> TouchesDefang(o, start, end))
  }

  ghost predicate EndsLikeFile(lib: ScanLib, name: string) {
    exists l :: IsLastLabel(name, l) && lib.host.lower(l) in FILE_EXTENSIONS
  }

  /** Two of its characters differ. */
  predicate IsVaried(s: string) {
    exists i, j :: 0 <= i < |s| && 0 <= j < |s| && s[i] != s[j]
  }

  /** A URL is reported in its normal form, cut off and marked when that is too long. */
  ghost predicate UrlVerdict(lib: ScanLib, token: string, hit: Hit) {
    var normal := NormalizeUrl(lib.host, token);
    && normal.Some?
    && (|normal.value| <= 2048 ==> hit.value == normal.value && hit.valid && hit.warnings == [])
    && (|normal.value| > 2048 ==> hit.value == normal.value[..2048] && !hit.valid && hit.warnings == ["value_too_long"])
  }

  /** An email is reported with its domain in normal form; its local part has no dot at either end. */
  ghost predicate EmailVerdict(lib: ScanLib, token: string, hit: Hit) {
    && hit.valid && hit.warnings == []
    && exists at :: EmailCutAt(lib, token, at, hit.value)
  }

  ghost predicate EmailCutAt(lib: ScanLib, token: string, at: int, value: string) {
    IsLocalEnd(token, at) && IsEmailOf(lib, token[..at], token[at + 1..], value)
  }

  /** The first at-sign, after a nonempty local part without a dot at either end. */
  predicate IsLocalEnd(token: string, at: int) {
    0 < at < |token| && token[at] == '@' && '@' !in token[..at] && token[0] != '.' && token[at - 1] != '.'
  }

  ghost predicate IsEmailOf(lib: ScanLib, local: string, host: string, value: string) {
    exists name, domain :: IdnaHost(lib.host, host) == Some(name) && NormalizeDomain(lib.host, name) == Some(domain)
      && value == local + "@" + domain
  }

  /** A parsed address is reported in its canonical form, warned about exactly when it is outside the public ranges. */
  ghost predicate IsAddress(a: Address, hit: Hit) {
    hit.valid && hit.value == a.text && hit.warnings == if a.nonPublic then ["non_public_ip"] else []
  }

  /** An IPv4 candidate is valid exactly when the parser reads it. */
  ghost predicate Ipv4Verdict(lib: ScanLib, token: string, hit: Hit) {
    match lib.readV4(token)
    case Some(a) => IsAddress(a, hit)
    case None => !hit.valid && hit.value == token && hit.warnings == ["invalid_ip"]
  }

  /** A hash has one of three lengths, is valid unless it is one character repeated, and the two short kinds are warned about. */
  ghost predicate HashVerdict(lib: ScanLib, token: string, hit: Hit) {
    && (|token| == 32 || |token| == 40 || |token| == 64) && hit.value == lib.host.lower(token)
    && (hit.valid <==> hit.value == "" || IsVaried(hit.value))
    && (!hit.valid ==> hit.warnings == ["invalid_hash"])
    && (hit.valid && |token| == 32 ==> hit.warnings == ["hash_md5"])
    && (hit.valid && |token| == 40 ==> hit.warnings == ["hash_sha1"])
    && (hit.valid && |token| == 64 ==> hit.warnings == [])
  }

  /** A domain is domain-shaped; it is valid when it normalizes, and then warned about exactly when it ends like a file name. */
  ghost predicate DomainVerdict(lib: ScanLib, o: Offsets, token: string, hit: Hit) {
    && token != "" && '_' !in token && token[0] != '.' && token[|token| - 1] != '.'
    && var name := IdnaHost(lib.host, token);
      name.Some? && IsDomainShaped(lib, o, name.value, hit.start, hit.end) && NameVerdict(lib, name.value, hit)
  }

  ghost predicate NameVerdict(lib: ScanLib, name: string, hit: Hit) {
    match NormalizeDomain(lib.host, name)
    case Some(domain) =>
      && hit.valid && hit.value == domain
      && (hit.warnings == ["looks_like_filename"] <==> EndsLikeFile(lib, name))
      && (hit.warnings == [] <==> !EndsLikeFile(lib, name))
    case None =>
      && !hit.valid && hit.warnings == ["invalid_domain"]
      && hit.value <= lib.host.lower(name) && (|lib.host.lower(name)| <= 2048 ==> hit.value == lib.host.lower(name))
      && (|lib.host.lower(name)| > 2048 ==> |hit.value| == 2048)
  }

  function TypeOf(p: Phase): ObsType {
    match p
    case Urls => Url
    case Emails => EmailAddr
    case Ipv6 => IpAddr
    case Ipv4 => IpAddr
    case Hashes => FileHash
    case Domains => DomainName
  }

  /** The verdict of a phase, as the characters of the range and the defangs decide it. */
  ghost predicate RightVerdict(lib: ScanLib, p: Phase, text: string, o: Offsets, hit: Hit) {
    && hit.start < hit.end <= |text| && hit.typ == TypeOf(p)
    && var token := text[hit.start..hit.end];
      match p
      case Urls => UrlVerdict(lib, token, hit)
      case Emails => EmailVerdict(lib, token, hit)
      case Ipv6 => exists a :: lib.readV6(token) == Some(a) && IsAddress(a, hit)
      case Ipv4 => Ipv4Verdict(lib, token, hit)
      case Hashes => HashVerdict(lib, token, hit)
      case Domains => DomainVerdict(lib, o, token, hit)
  }

  lemma {:induction false} StripEndIs(text: string, chars: string, lo: nat, hi: nat)
    requires lo <= hi <= |text|
    ensures var end := StripEnd(text, chars, lo, hi);
      (forall i :: end <= i < hi ==> text[i] in chars) && (end == lo || text[end - 1] !in chars)
    decreases hi
  {
    if lo < hi && text[hi - 1] in chars {
      StripEndIs(text, chars, lo, hi - 1);
    }
  }

  lemma {:induction false} StripStartIs(text: string, chars: string, lo: nat, hi: nat)
    requires lo <= hi <= |text|
    ensures var start := StripStart(text, chars, lo, hi);
      (forall i :: lo <= i < start ==> text[i] in chars) && (start == hi || text[start] !in chars)
    decreases hi - lo
  {
    if lo < hi && text[lo] in chars {
      StripStartIs(text, chars, lo + 1, hi);
    }
  }

  lemma {:induction false} LastLabelIs(name: string)
    ensures |Labels(name)| >= 2 <==> '.' in name
    ensures |Labels(name)| >= 2 ==> IsLastLabel(name, Labels(name)[|Labels(name)| - 1])
    ensures forall a, b :: IsLastLabel(name, a) && IsLastLabel(name, b) ==> a == b
  {
    var dot := FindLast(name, ".", 0, |name|);
    if dot.Some? {
      assert name[dot.value] == '.';
      var l := name[dot.value + 1..];
      forall i | 0 <= i < |l|
        ensures l[i] != '.'
      {
        assert !OneOf(name, dot.value + 1 + i, ".");
      }
      assert IsLastLabel(name, l);
    } else {
      forall i | 0 <= i < |name|
        ensures name[i] != '.'
      {
        assert !OneOf(name, i, ".");
      }
    }
    forall a, b | IsLastLabel(name, a) && IsLastLabel(name, b)
      ensures a == b
    {
      OneLastLabel(name, a, b);
    }
  }

  lemma OneLastLabel(name: string, a: string, b: string)
    requires IsLastLabel(name, a) && IsLastLabel(name, b)
    ensures a == b
  {
    var d :| 0 <= d < |name| && name[d] == '.' && a == name[d + 1..] && '.' !in a;
    var e :| 0 <= e < |name| && name[e] == '.' && b == name[e + 1..] && '.' !in b;
    assert forall i :: d < i < |name| ==> name[i] == a[i - d - 1];
    assert forall i :: e < i < |name| ==> name[i] == b[i - e - 1];
  }

  /** A run becomes a hit exactly when its name is domain-shaped. */
  lemma NameHitIff(lib: ScanLib, o: Offsets, name: string, start: nat, end: nat)
    requires Ordered(o.defangs)
    ensures NameHit(lib, o, name, start, end).Some? <==> IsDomainShaped(lib, o, name, start, end)
  {
    LastLabelIs(name);
    DefangedIffOverlap(o, start, end);
    if IsDomainShaped(lib, o, name, start, end) {
      var l :| IsLastLabel(name, l) && TldShapeOk(lib.host.lower(l)) &&
        (lib.host.lower(l) in FILE_EXTENSIONS ==> TouchesDefang(o, start, end));
    }
  }

  lemma NameHitVerdict(lib: ScanLib, o: Offsets, name: string, start: nat, end: nat)
    requires Ordered(o.defangs) && NameHit(lib, o, name, start, end).Some?
    ensures NameVerdict(lib, name, NameHit(lib, o, name, start, end).value)
  {
    LastLabelIs(name);
  }

  lemma DomainHitVerdict(lib: ScanLib, text: string, o: Offsets, m: Span)
    requires m.start < m.end <= |text| && Ordered(o.defangs) && DomainHit(lib, text, o, m).Some?
    ensures RightVerdict(lib, Domains, text, o, DomainHit(lib, text, o, m).value)
  {
    var start := StripStart(text, ".", m.start, m.end);
    var end := StripEnd(text, ".", start, m.end);
    DotsCut(text, m, start, end);
    RunVerdict(lib, o, text[start..end], start, end);
    DomainIsRight(lib, text, o, DomainHit(lib, text, o, m).value);
  }

  lemma DotsCut(text: string, m: Span, start: nat, end: nat)
    requires m.start < m.end <= |text| && start == StripStart(text, ".", m.start, m.end) && end == StripEnd(text, ".", start, m.end)
    ensures start < end ==> text[start] != '.' && text[end - 1] != '.'
  {
    StripStartIs(text, ".", m.start, m.end);
    StripEndIs(text, ".", start, m.end);
  }

  lemma DomainIsRight(lib: ScanLib, text: string, o: Offsets, hit: Hit)
    requires hit.start < hit.end <= |text| && hit.typ == DomainName && DomainVerdict(lib, o, text[hit.start..hit.end], hit)
    ensures RightVerdict(lib, Domains, text, o, hit)
  {
  }

  lemma RunVerdict(lib: ScanLib, o: Offsets, run: string, start: nat, end: nat)
    requires Ordered(o.defangs) && run != "" && '_' !in run && run[0] != '.' && run[|run| - 1] != '.'
    requires IdnaHost(lib.host, run).Some?
    ensures var hit := NameHit(lib, o, IdnaHost(lib.host, run).value, start, end);
      hit.Some? ==> hit.value.typ == DomainName && DomainVerdict(lib, o, run, hit.value)
  {
    var name := IdnaHost(lib.host, run).value;
    NameHitIff(lib, o, name, start, end);
    if NameHit(lib, o, name, start, end).Some? {
      NameHitVerdict(lib, o, name, start, end);
    }
  }

  lemma UrlHitVerdict(lib: ScanLib, text: string, o: Offsets, m: Span)
    requires m.start < m.end <= |text| && UrlHit(lib, text, m).Some?
    ensures RightVerdict(lib, Urls, text, o, UrlHit(lib, text, m).value)
  {
    NoUrlWithoutSeparator(lib);
  }

  lemma EmailHitVerdict(lib: ScanLib, text: string, o: Offsets, m: Span)
    requires m.start < m.end <= |text| && EmailHit(lib, text, m).Some?
    ensures RightVerdict(lib, Emails, text, o, EmailHit(lib, text, m).value)
  {
    var at := FindFirst(text, "@", m.start, m.end).value;
    var start := StripStart(text, ".", m.start, at);
    var end := StripEnd(text, ".", at + 1, m.end);
    StripStartIs(text, ".", m.start, at);
    var token := text[start..end];
    assert forall i :: start <= i < at ==> !OneOf(text, i, "@");
    var local := token[..at - start];
    forall i | 0 <= i < |local|
      ensures local[i] != '@'
    {
      assert !OneOf(text, start + i, "@");
    }
    assert IsLocalEnd(token, at - start);
    assert EmailCutAt(lib, token, at - start, EmailHit(lib, text, m).value.value) by {
      assert token[..at - start] == text[start..at] && token[at - start + 1..] == text[at + 1..end];
    }
  }

  lemma AddressHitVerdict(lib: ScanLib, text: string, o: Offsets, m: Span)
    requires m.start < m.end <= |text|
    ensures Ipv6Hit(lib, text, m).Some? ==> RightVerdict(lib, Ipv6, text, o, Ipv6Hit(lib, text, m).value)
    ensures Ipv4Hit(lib, text, m).Some? && RightVerdict(lib, Ipv4, text, o, Ipv4Hit(lib, text, m).value)
  {
    var token := text[m.start..StripEnd(text, ".", m.start, m.end)];
    assert token == "" ==> Count(token, ':') == 0;
  }

  lemma HashHitVerdict(lib: ScanLib, text: string, o: Offsets, m: Span)
    requires m.start < m.end <= |text| && HashHit(lib, text, m).Some?
    ensures RightVerdict(lib, Hashes, text, o, HashHit(lib, text, m).value)
  {
    var value := lib.host.lower(text[m.start..m.end]);
    if value != "" && !(forall i :: 0 <= i < |value| ==> value[i] == value[0]) {
      var i :| 0 <= i < |value| && value[i] != value[0];
      assert IsVaried(value);
    }
  }

  lemma MatchVerdict(lib: ScanLib, p: Phase, text: string, o: Offsets, m: Span)
    requires m.start < m.end <= |text| && Ordered(o.defangs) && MatchHit(lib, p, text, o, m).Some?
    ensures RightVerdict(lib, p, text, o, MatchHit(lib, p, text, o, m).value)
  {
    match p
    case Urls => UrlHitVerdict(lib, text, o, m);
    case Emails => EmailHitVerdict(lib, text, o, m);
    case Ipv6 => AddressHitVerdict(lib, text, o, m);
    case Ipv4 => AddressHitVerdict(lib, text, o, m);
    case Hashes => HashHitVerdict(lib, text, o, m);
    case Domains => DomainHitVerdict(lib, text, o, m);
  }

  /** text[lo..end] is text[lo..hi] without some trailing characters. */
  predicate IsCutRight(text: string, chars: string, lo: nat, hi: nat, end: nat) {
    lo <= end <= hi <= |text| && (forall i :: end <= i < hi ==> text[i] in chars) && (end == lo || text[end - 1] !in chars)
  }

  predicate IsCutLeft(text: string, chars: string, lo: nat, hi: nat, start: nat) {
    lo <= start <= hi <= |text| && (forall i :: lo <= i < start ==> text[i] in chars) && (start == hi || text[start] !in chars)
  }

  lemma {:induction false} CutRightIsStrip(text: string, chars: string, lo: nat, hi: nat, end: nat)
    requires lo <= hi <= |text|
    ensures IsCutRight(text, chars, lo, hi, end) <==> end == StripEnd(text, chars, lo, hi)
  {
    StripEndIs(text, chars, lo, hi);
    var strip := StripEnd(text, chars, lo, hi);
    assert strip < end <= hi ==> text[end - 1] in chars;
    assert lo <= end < strip ==> text[strip - 1] !in chars;
  }

  lemma {:induction false} CutLeftIsStrip(text: string, chars: string, lo: nat, hi: nat, start: nat)
    requires lo <= hi <= |text|
    ensures IsCutLeft(text, chars, lo, hi, start) <==> start == StripStart(text, chars, lo, hi)
  {
    StripStartIs(text, chars, lo, hi);
    var strip := StripStart(text, chars, lo, hi);
    assert lo <= start < strip ==> text[start] in chars;
    assert strip < start <= hi ==> text[strip] !in chars;
  }

  /** A URL without its trailing punctuation that normalizes. */
  ghost predicate UrlDeserves(lib: ScanLib, text: string, m: Span, start: nat, end: nat)
    requires m.end <= |text|
  {
    start == m.start && IsCutRight(text, URL_TRAILING_PUNCTUATION, m.start, m.end, end) &&
    NormalizeUrl(lib.host, text[start..end]).Some?
  }

  /** No word reaches into the match on either side. */
  predicate StandsAlone(lib: ScanLib, text: string, m: Span)
    requires m.start < m.end <= |text|
  {
    && (m.end < |text| ==> !lib.isWord(text[m.end]) && text[m.end] != '.' && text[m.end] != '-')
    && (m.start > 0 ==> !lib.isWord(text[m.start - 1]))
  }

  /** An email that is not cut out of a longer word on either side, dots stripped, with a local part and a domain. */
  ghost predicate EmailDeserves(lib: ScanLib, text: string, m: Span, start: nat, end: nat)
    requires m.start < m.end <= |text|
  {
    StandsAlone(lib, text, m) && exists at :: AtSplits(lib, text, m, start, at, end)
  }

  /** What follows the at-sign has an IDNA form that normalizes. */
  predicate HasDomain(lib: ScanLib, host: string) {
    var name := IdnaHost(lib.host, host);
    name.Some? && NormalizeDomain(lib.host, name.value).Some?
  }

  ghost predicate AtSplits(lib: ScanLib, text: string, m: Span, start: nat, at: int, end: nat)
    requires m.start < m.end <= |text|
  {
    && m.start <= at < m.end && text[at] == '@' && (forall i :: m.start <= i < at ==> text[i] != '@')
    && IsCutLeft(text, ".", m.start, at, start) && IsCutRight(text, ".", at + 1, m.end, end)
    && start < at && text[at - 1] != '.' && HasDomain(lib, text[at + 1..end])
  }

  /** An IPv6 candidate without trailing dots that has two colons and a digit, and that the parser reads. */
  ghost predicate Ipv6Deserves(lib: ScanLib, text: string, m: Span, start: nat, end: nat)
    requires m.end <= |text|
  {
    && start == m.start && IsCutRight(text, ".", m.start, m.end, end)
    && (exists i, j :: start <= i < j < end && text[i] == ':' && text[j] == ':')
    && (exists i :: start <= i < end && lib.host.isDigit(text[i]))
    && lib.readV6(text[start..end]).Some?
  }

  /** A run without outer dots or underscores whose name is domain-shaped. */
  ghost predicate DomainDeserves(lib: ScanLib, text: string, o: Offsets, m: Span, start: nat, end: nat)
    requires m.end <= |text|
  {
    && m.start <= m.end && IsCutLeft(text, ".", m.start, m.end, start) && IsCutRight(text, ".", start, m.end, end)
    && start < end && '_' !in text[start..end]
    && var name := IdnaHost(lib.host, text[start..end]);
      name.Some? && IsDomainShaped(lib, o, name.value, start, end)
  }

  /** The phase makes a hit of this range from the match. */
  ghost predicate Deserves(lib: ScanLib, p: Phase, text: string, o: Offsets, m: Span, start: nat, end: nat)
    requires m.start < m.end <= |text|
  {
    match p
    case Urls => UrlDeserves(lib, text, m, start, end)
    case Emails => EmailDeserves(lib, text, m, start, end)
    case Ipv6 => Ipv6Deserves(lib, text, m, start, end)
    case Ipv4 => start == m.start && end == m.end
    case Hashes => start == m.start && end == m.end && (end - start == 32 || end - start == 40 || end - start == 64)
    case Domains => DomainDeserves(lib, text, o, m, start, end)
  }

  lemma UrlIff(lib: ScanLib, text: string, m: Span, start: nat, end: nat)
    requires m.start < m.end <= |text|
    ensures var hit := UrlHit(lib, text, m);
      UrlDeserves(lib, text, m, start, end) <==> hit.Some? && hit.value.start == start && hit.value.end == end
  {
    CutRightIsStrip(text, URL_TRAILING_PUNCTUATION, m.start, m.end, end);
  }

  lemma {:induction false} CountTwo(s: string, c: char)
    ensures Count(s, c) >= 1 <==> c in s
    ensures Count(s, c) >= 2 <==> exists i, j :: 0 <= i < j < |s| && s[i] == c && s[j] == c
  {
    if s != "" {
      var front, n := s[..|s| - 1], |s| - 1;
      CountTwo(front, c);
      assert s == front + [s[n]];
      if Count(front, c) >= 2 {
        var i, j :| 0 <= i < j < |front| && front[i] == c && front[j] == c;
        assert s[i] == c && s[j] == c;
      } else if s[n] == c && c in front {
        var i :| 0 <= i < |front| && front[i] == c;
        assert s[i] == c && s[n] == c;
      }
      if i, j :| 0 <= i < j < |s| && s[i] == c && s[j] == c {
        assert front[i] == c && (j < n ==> front[j] == c);
      }
    }
  }

  lemma Ipv6Iff(lib: ScanLib, text: string, m: Span, start: nat, end: nat)
    requires m.start < m.end <= |text|
    ensures var hit := Ipv6Hit(lib, text, m);
      Ipv6Deserves(lib, text, m, start, end) <==> hit.Some? && hit.value.start == start && hit.value.end == end
  {
    CutRightIsStrip(text, ".", m.start, m.end, end);
    if start == m.start && end == StripEnd(text, ".", m.start, m.end) {
      var token := text[start..end];
      CountTwo(token, ':');
      assert forall i :: start <= i < end ==> text[i] == token[i - start];
      TwoColons(text, start, end);
      SomeDigit(lib, text, start, end);
    }
  }

  lemma TwoColons(text: string, start: nat, end: nat)
    requires start <= end <= |text|
    ensures (exists i, j :: 0 <= i < j < end - start && text[start..end][i] == ':' && text[start..end][j] == ':') <==>
      exists i, j :: start <= i < j < end && text[i] == ':' && text[j] == ':'
  {
    var token := text[start..end];
    if i, j :| start <= i < j < end && text[i] == ':' && text[j] == ':' {
      assert token[i - start] == ':' && token[j - start] == ':';
    }
    if i, j :| 0 <= i < j < end - start && token[i] == ':' && token[j] == ':' {
      assert text[start + i] == ':' && text[start + j] == ':';
    }
  }

  lemma SomeDigit(lib: ScanLib, text: string, start: nat, end: nat)
    requires start <= end <= |text|
    ensures (forall i :: 0 <= i < end - start ==> !lib.host.isDigit(text[start..end][i])) <==>
      !exists i :: start <= i < end && lib.host.isDigit(text[i])
  {
    var token := text[start..end];
    if i :| start <= i < end && lib.host.isDigit(text[i]) {
      assert token[i - start] == text[i];
    }
    if i :| 0 <= i < end - start && lib.host.isDigit(token[i]) {
      assert text[start + i] == token[i];
    }
  }

  lemma FirstAt(text: string, lo: nat, hi: nat, at: int)
    requires lo <= hi <= |text|
    ensures FindFirst(text, "@", lo, hi).Some? ==> forall i :: lo <= i < FindFirst(text, "@", lo, hi).value ==> text[i] != '@'
    ensures lo <= at < hi && text[at] == '@' && (forall i :: lo <= i < at ==> text[i] != '@') <==>
      FindFirst(text, "@", lo, hi).Some? && FindFirst(text, "@", lo, hi).value == at
  {
    forall i | lo <= i < hi
      ensures OneOf(text, i, "@") <==> text[i] == '@'
    {
    }
  }

  lemma SplitIff(lib: ScanLib, text: string, m: Span, start: nat, at: int, end: nat)
    requires m.start < m.end <= |text|
    ensures AtSplits(lib, text, m, start, at, end) <==> SplitsHere(lib, text, m, start, at, end)
  {
    FirstAt(text, m.start, m.end, at);
    if m.start <= at < m.end {
      CutLeftIsStrip(text, ".", m.start, at, start);
      CutRightIsStrip(text, ".", at + 1, m.end, end);
    }
  }

  lemma EmailIff(lib: ScanLib, text: string, m: Span, start: nat, end: nat)
    requires m.start < m.end <= |text|
    ensures var hit := EmailHit(lib, text, m);
      EmailDeserves(lib, text, m, start, end) <==> hit.Some? && hit.value.start == start && hit.value.end == end
  {
    forall at
      ensures AtSplits(lib, text, m, start, at, end) <==> SplitsHere(lib, text, m, start, at, end)
    {
      SplitIff(lib, text, m, start, at, end);
    }
    EmailHitIff(lib, text, m, start, end);
  }

  ghost predicate SplitsHere(lib: ScanLib, text: string, m: Span, start: nat, at: int, end: nat)
    requires m.start < m.end <= |text|
  {
    var first := FindFirst(text, "@", m.start, m.end);
    && first.Some? && first.value == at
    && start == StripStart(text, ".", m.start, first.value) && end == StripEnd(text, ".", first.value + 1, m.end)
    && start < at && text[at - 1] != '.' && HasDomain(lib, text[at + 1..end])
  }

  lemma EmailHitIff(lib: ScanLib, text: string, m: Span, start: nat, end: nat)
    requires m.start < m.end <= |text|
    ensures var hit := EmailHit(lib, text, m);
      hit.Some? && hit.value.start == start && hit.value.end == end <==>
        StandsAlone(lib, text, m) && exists at :: SplitsHere(lib, text, m, start, at, end)
  {
    SplitsOnce(lib, text, m, start, end);
    var first := FindFirst(text, "@", m.start, m.end);
    if StandsAlone(lib, text, m) && first.Some? {
      EmailAtIff(lib, text, m, first.value, start, end);
    } else {
      NoEmail(lib, text, m);
    }
  }

  lemma NoEmail(lib: ScanLib, text: string, m: Span)
    requires m.start < m.end <= |text|
    ensures EmailHit(lib, text, m).Some? ==> StandsAlone(lib, text, m) && FindFirst(text, "@", m.start, m.end).Some?
  {
  }

  lemma EmailAtIff(lib: ScanLib, text: string, m: Span, at: nat, start: nat, end: nat)
    requires m.start < m.end <= |text| && StandsAlone(lib, text, m)
    requires FindFirst(text, "@", m.start, m.end) == Some(at)
    ensures var hit := EmailHit(lib, text, m);
      hit.Some? && hit.value.start == start && hit.value.end == end <==> SplitsHere(lib, text, m, start, at, end)
  {
    EmailAt(lib, text, m, at);
    SplitsAre(lib, text, m, start, at, end);
  }

  lemma SplitsAre(lib: ScanLib, text: string, m: Span, start: nat, at: nat, end: nat)
    requires m.start < m.end <= |text| && FindFirst(text, "@", m.start, m.end) == Some(at)
    ensures SplitsHere(lib, text, m, start, at, end) <==>
      (start == StripStart(text, ".", m.start, at) && end == StripEnd(text, ".", at + 1, m.end) &&
      start < at && text[at - 1] != '.' && HasDomain(lib, text[at + 1..end]))
  {
  }

  lemma SplitsOnce(lib: ScanLib, text: string, m: Span, start: nat, end: nat)
    requires m.start < m.end <= |text|
    ensures var first := FindFirst(text, "@", m.start, m.end);
      (exists at :: SplitsHere(lib, text, m, start, at, end)) <==> first.Some? && SplitsHere(lib, text, m, start, first.value, end)
  {
  }

  lemma EmailAt(lib: ScanLib, text: string, m: Span, at: nat)
    requires m.start < m.end <= |text| && StandsAlone(lib, text, m)
    requires FindFirst(text, "@", m.start, m.end) == Some(at)
    ensures m.start <= at < m.end
    ensures var start, end := StripStart(text, ".", m.start, at), StripEnd(text, ".", at + 1, m.end);
      EmailHit(lib, text, m).Some? <==> (start < at && text[at - 1] != '.' && HasDomain(lib, text[at + 1..end]))
    ensures var hit, start, end := EmailHit(lib, text, m), StripStart(text, ".", m.start, at), StripEnd(text, ".", at + 1, m.end);
      hit.Some? ==> hit.value.start == start && hit.value.end == end
  {
  }

  lemma DomainIff(lib: ScanLib, text: string, o: Offsets, m: Span, start: nat, end: nat)
    requires m.start < m.end <= |text| && Ordered(o.defangs)
    ensures var hit := DomainHit(lib, text, o, m);
      DomainDeserves(lib, text, o, m, start, end) <==> hit.Some? && hit.value.start == start && hit.value.end == end
  {
    CutLeftIsStrip(text, ".", m.start, m.end, start);
    if start == StripStart(text, ".", m.start, m.end) {
      CutRightIsStrip(text, ".", start, m.end, end);
      if end == StripEnd(text, ".", start, m.end) && IdnaHost(lib.host, text[start..end]).Some? {
        NameHitIff(lib, o, IdnaHost(lib.host, text[start..end]).value, start, end);
      }
    }
  }

  /** A match becomes a hit of a range exactly when the characters of the range and around it deserve it. */
  lemma MatchHitIff(lib: ScanLib, p: Phase, text: string, o: Offsets, m: Span, start: nat, end: nat)
    requires m.start < m.end <= |text| && Ordered(o.defangs)
    ensures var hit := MatchHit(lib, p, text, o, m);
      && (Deserves(lib, p, text, o, m, start, end) <==> hit.Some? && hit.value.start == start && hit.value.end == end)
      && (hit.Some? ==> hit.value.typ == TypeOf(p))
  {
    match p
    case Urls => UrlIff(lib, text, m, start, end);
    case Emails => EmailIff(lib, text, m, start, end);
    case Ipv6 => Ipv6Iff(lib, text, m, start, end);
    case Ipv4 =>
    case Hashes =>
    case Domains => DomainIff(lib, text, o, m, start, end);
  }

  lemma LocalEndUnique(token: string, a: int, b: int)
    requires IsLocalEnd(token, a) && IsLocalEnd(token, b)
    ensures a == b
  {
    assert forall i :: 0 <= i < a ==> token[i] == token[..a][i];
    assert forall i :: 0 <= i < b ==> token[i] == token[..b][i];
  }

  lemma EmailOfUnique(lib: ScanLib, local: string, host: string, a: string, b: string)
    requires IsEmailOf(lib, local, host, a) && IsEmailOf(lib, local, host, b)
    ensures a == b
  {
  }

  lemma EmailUnique(lib: ScanLib, token: string, a: Hit, b: Hit)
    requires EmailVerdict(lib, token, a) && EmailVerdict(lib, token, b)
    ensures a.value == b.value && a.valid == b.valid && a.warnings == b.warnings
  {
    var i :| EmailCutAt(lib, token, i, a.value);
    var j :| EmailCutAt(lib, token, j, b.value);
    LocalEndUnique(token, i, j);
    EmailOfUnique(lib, token[..i], token[i + 1..], a.value, b.value);
  }

  /** A range has one verdict in a phase. */
  lemma VerdictUnique(lib: ScanLib, p: Phase, text: string, o: Offsets, a: Hit, b: Hit)
    requires RightVerdict(lib, p, text, o, a) && RightVerdict(lib, p, text, o, b)
    requires a.start == b.start && a.end == b.end
    ensures a == b
  {
    var token := text[a.start..a.end];
    match p
    case Emails => EmailUnique(lib, token, a, b);
    case Domains =>
      var low := lib.host.lower(IdnaHost(lib.host, token).value);
      assert a.value <= low ==> a.value == low[..|a.value|];
      assert b.value <= low ==> b.value == low[..|b.value|];
    case _ =>
  }

  /** A match of the phase that deserves the range of hit, and the verdict on that range. */
  ghost predicate Earned(lib: ScanLib, p: Phase, text: string, o: Offsets, hit: Hit) {
    && RightVerdict(lib, p, text, o, hit)
    && exists m :: m in lib.find(p, text) && m.start < m.end <= |text| && Deserves(lib, p, text, o, m, hit.start, hit.end)
  }

  /** A hit is made by a phase exactly when its range is deserved and its verdict is right. */
  lemma EarnedIff(lib: ScanLib, p: Phase, text: string, o: Offsets, hit: Hit)
    requires Ordered(o.defangs)
    ensures MadeBy(lib, p, text, o, hit) <==> Earned(lib, p, text, o, hit)
  {
    if m :| m in lib.find(p, text) && m.start < m.end <= |text| && MatchHit(lib, p, text, o, m) == Some(hit) {
      MatchHitIff(lib, p, text, o, m, hit.start, hit.end);
      MatchVerdict(lib, p, text, o, m);
    }
    if Earned(lib, p, text, o, hit) {
      var m :| m in lib.find(p, text) && m.start < m.end <= |text| && Deserves(lib, p, text, o, m, hit.start, hit.end);
      MatchHitIff(lib, p, text, o, m, hit.start, hit.end);
      MatchVerdict(lib, p, text, o, m);
      VerdictUnique(lib, p, text, o, hit, MatchHit(lib, p, text, o, m).value);
    }
  }

  /** One phase on one text: the hits that are earned there, from left to right. */
  ghost predicate PhaseDone(lib: ScanLib, p: Phase, text: string, o: Offsets, hits: seq<Hit>) {
    && (forall hit :: hit in hits <==> Earned(lib, p, text, o, hit))
    && LeftToRight(hits)
  }

  ghost predicate LeftToRight(hits: seq<Hit>) {
    forall i, j :: 0 <= i < j < |hits| ==> hits[i].end <= hits[j].start
  }

  /** The text without what was found so far. */
  ghost function Without(text: string, found: seq<Hit>): (rest: string)
    ensures IsMasked(text, RangesOf(found), rest)
  {
    MaskedText(text, RangesOf(found))
  }

  function Joined(turns: seq<seq<Hit>>): seq<Hit> {
    if turns == [] then [] else Joined(turns[..|turns| - 1]) + turns[|turns| - 1]
  }

  /** The phases take turns, each on what the earlier ones leave of the text. */
  ghost predicate InTurn(lib: ScanLib, text: string, o: Offsets, phases: seq<Phase>, turns: seq<seq<Hit>>) {
    |turns| == |phases| && forall k :: 0 <= k < |turns| ==> TurnAt(lib, text, o, phases[k], turns, k)
  }

  ghost predicate TurnAt(lib: ScanLib, text: string, o: Offsets, p: Phase, turns: seq<seq<Hit>>, k: nat)
    requires k < |turns|
  {
    PhaseDone(lib, p, Without(text, Joined(turns[..k])), o, turns[k])
  }

  /** URLs first, then emails, IPv6 and IPv4 addresses, hashes and domains. */
  ghost predicate IsScan(lib: ScanLib, text: string, o: Offsets, hits: seq<Hit>) {
    exists turns :: InTurn(lib, text, o, [Urls, Emails, Ipv6, Ipv4, Hashes, Domains], turns) && hits == Joined(turns)
  }

  lemma {:induction false} PhaseOrdered(lib: ScanLib, p: Phase, text: string, o: Offsets, matches: seq<Span>)
    requires Matches(matches, |text|) && Ordered(o.defangs)
    ensures LeftToRight(HitsOf(lib, p, text, o, matches))
    decreases |matches|
  {
    if matches != [] {
      var front, last := matches[..|matches| - 1], matches[|matches| - 1];
      PhaseOrdered(lib, p, text, o, front);
      var hits := HitsOf(lib, p, text, o, front);
      forall k | 0 <= k < |hits|
        ensures hits[k].end <= last.start
      {
        var m := HitOrigin(lib, p, text, o, front, k);
        assert matches[m].end <= last.start;
      }
    }
  }

  lemma PhaseIsDone(lib: ScanLib, p: Phase, text: string, o: Offsets)
    requires Searches(lib) && Ordered(o.defangs)
    ensures PhaseDone(lib, p, text, o, PhaseHits(lib, p, text, o))
  {
    assert Matches(lib.find(p, text), |text|);
    PhaseOrdered(lib, p, text, o, lib.find(p, text));
    forall hit
      ensures hit in PhaseHits(lib, p, text, o) <==> Earned(lib, p, text, o, hit)
    {
      PhaseHitsExact(lib, p, text, o, hit);
      EarnedIff(lib, p, text, o, hit);
    }
  }

  lemma TurnAdded(lib: ScanLib, text: string, o: Offsets, phases: seq<Phase>, turns: seq<seq<Hit>>, p: Phase, last: seq<Hit>)
    requires InTurn(lib, text, o, phases, turns) && PhaseDone(lib, p, Without(text, Joined(turns)), o, last)
    ensures InTurn(lib, text, o, phases + [p], turns + [last]) && Joined(turns + [last]) == Joined(turns) + last
  {
    var all := turns + [last];
    assert all[..|turns|] == turns;
    forall k | 0 <= k < |all|
      ensures TurnAt(lib, text, o, (phases + [p])[k], all, k)
    {
      if k < |turns| {
        assert all[..k] == turns[..k];
        assert TurnAt(lib, text, o, phases[k], turns, k);
      }
    }
  }

  lemma {:induction false} PhasesInTurn(lib: ScanLib, text: string, o: Offsets, n: nat) returns (turns: seq<seq<Hit>>)
    requires Searches(lib) && Ordered(o.defangs) && n <= |PHASES|
    ensures InTurn(lib, text, o, PHASES[..n], turns) && HitsBefore(lib, text, o, n) == Joined(turns)
  {
    turns := [];
    if n > 0 {
      var m := n - 1;
      turns := PhasesInTurn(lib, text, o, m);
      turns := NextTurn(lib, text, o, m, PHASES[..m], turns);
      assert PHASES[..n] == PHASES[..m] + [PHASES[m]];
    }
  }

  lemma NextTurn(lib: ScanLib, text: string, o: Offsets, m: nat, phases: seq<Phase>, turns: seq<seq<Hit>>)
    returns (more: seq<seq<Hit>>)
    requires Searches(lib) && Ordered(o.defangs) && m < |PHASES|
    requires InTurn(lib, text, o, phases, turns) && HitsBefore(lib, text, o, m) == Joined(turns)
    ensures InTurn(lib, text, o, phases + [PHASES[m]], more) && HitsBefore(lib, text, o, m + 1) == Joined(more)
  {
    var p, left := PHASES[m], TextBefore(lib, text, o, m);
    PhaseIsDone(lib, p, left, o);
    TurnAdded(lib, text, o, phases, turns, p, PhaseHits(lib, p, left, o));
    more := turns + [PhaseHits(lib, p, left, o)];
  }

  /** A scan reports what the six phases earn in turn, and nothing else. */
  lemma ScanIsInTurn(lib: ScanLib, text: string, o: Offsets)
    requires Searches(lib) && Ordered(o.defangs)
    ensures IsScan(lib, text, o, ScanHits(lib, text, o))
  {
    var turns := PhasesInTurn(lib, text, o, |PHASES|);
    assert PHASES[..|PHASES|] == [Urls, Emails, Ipv6, Ipv4, Hashes, Domains];
  }

  lemma Unblanked(text: string, spans: seq<Span>, masked: string, start: nat, end: nat)
    requires IsMasked(text, spans, masked) && start <= end && SpaceFree(masked, Span(start, end))
    ensures end <= |text| && text[start..end] == masked[start..end]
  {
    forall i | start <= i < end
      ensures text[i] == masked[i]
    {
      assert MaskedAt(text, spans, masked, i);
    }
  }

  /** The verdict of every hit is right on the text as it was before anything was blanked. */
  lemma ScanVerdicts(lib: ScanLib, text: string, o: Offsets, hit: Hit)
    requires Searches(lib) && Ordered(o.defangs) && hit in ScanHits(lib, text, o)
    ensures HasVerdict(lib, text, o, hit)
  {
    ScanHitsExact(lib, text, o, |PHASES|, hit);
    var i :| 0 <= i < |PHASES| && FoundBy(lib, text, o, i, hit);
    var p, left := PHASES[i], TextBefore(lib, text, o, i);
    EarnedIff(lib, p, left, o, hit);
    PhaseHitsExact(lib, p, left, o, hit);
    assert Matches(lib.find(p, left), |left|);
    var k :| 0 <= k < |PhaseHits(lib, p, left, o)| && PhaseHits(lib, p, left, o)[k] == hit;
    PhaseHitSpaceFree(lib, p, left, o, k);
    Unblanked(text, RangesOf(HitsBefore(lib, text, o, i)), left, hit.start, hit.end);
    assert RightVerdict(lib, p, text, o, hit);
  }

  ghost predicate HasVerdict(lib: ScanLib, text: string, o: Offsets, hit: Hit) {
    exists p :: RightVerdict(lib, p, text, o, hit)
  }

  /** Every hit is a nonempty range. */
  ghost predicate HitsWithin(hits: seq<Hit>, length: nat) {
    forall k :: 0 <= k < |hits| ==> hits[k].start < hits[k].end <= length
  }

  /** All phases in order: exactly the hits of the phases, no two overlapping, each a nonempty range of the text. */
  method Scan(lib: ScanLib, text: string, o: Offsets) returns (hits: seq<Hit>)
    requires Searches(lib) && Ordered(o.defangs)
    ensures hits == ScanHits(lib, text, o)
    ensures AllApart(hits) && HitsWithin(hits, |text|)
    ensures IsScan(lib, text, o, hits)
    ensures forall hit :: hit in hits ==> HasVerdict(lib, text, o, hit)
  {
    var phases := [Urls, Emails, Ipv6, Ipv4, Hashes];
    var current := text;
    hits := [];
    MaskedOnce(text, [], text);
    for i := 0 to |phases|
      invariant hits == HitsBefore(lib, text, o, i) && current == TextBefore(lib, text, o, i)
      invariant |current| == |text| && AllApart(hits) && Blanked(hits, current)
    {
      var found, spans := RunPhase(lib, phases[i], current, o);
      PhaseApartFromBlanked(lib, phases[i], current, o, hits);
      forall k | 0 <= k < |spans|
        ensures spans[k].end <= |current|
      {
        PhaseHitSpaceFree(lib, phases[i], current, o, k);
      }
      var masked := Mask(current, spans);
      MaskKeepsBlanks(lib, phases[i], current, o, hits, masked);
      PhaseMasks(lib, text, o, i, masked);
      hits := hits + found;
      current := masked;
    }
    var domains, _ := RunPhase(lib, Domains, current, o);
    PhaseApartFromBlanked(lib, Domains, current, o, hits);
    HitsInText(lib, Domains, current, o, hits);
    hits := hits + domains;
    ScanIsInTurn(lib, text, o);
    forall hit | hit in hits
      ensures HasVerdict(lib, text, o, hit)
    {
      ScanVerdicts(lib, text, o, hit);
    }
  }

  lemma HitsInText(lib: ScanLib, p: Phase, text: string, o: Offsets, hits: seq<Hit>)
    requires Searches(lib) && Ordered(o.defangs) && Blanked(hits, text) && InRange(lib.find(p, text), |text|)
    ensures HitsWithin(hits + HitsOf(lib, p, text, o, lib.find(p, text)), |text|)
  {
    var more := HitsOf(lib, p, text, o, lib.find(p, text));
    forall k | 0 <= k < |hits + more|
      ensures (hits + more)[k].start < (hits + more)[k].end <= |text|
    {
      if k < |hits| {
        assert BlankedHit(hits[k], text);
      } else {
        PhaseHitSpaceFree(lib, p, text, o, k - |hits|);
      }
    }
  }
}
