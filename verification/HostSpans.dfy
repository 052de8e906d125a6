/** Where hosts sit in refanged text, and which runs of dots inside them are obfuscated. */
module HostSpans {
  import opened Wrappers
  import opened OffsetMap
  import Sorting

  // ── Searching inside a range ──────────────────────────────────────────

  predicate OneOf(text: string, i: nat, chars: string) {
    i < |text| && text[i] in chars
  }

  /** `text.find(c, lo, hi)` for any of the given characters. */
  function FindFirst(text: string, chars: string, lo: nat, hi: nat): (r: Option<nat>)
    requires lo <= hi <= |text|
    ensures r.Some? ==> lo <= r.value < hi && OneOf(text, r.value, chars)
    ensures r.Some? ==> forall i :: lo <= i < r.value ==> !OneOf(text, i, chars)
    ensures r.None? ==> forall i :: lo <= i < hi ==> !OneOf(text, i, chars)
    decreases hi - lo
  {
    if lo == hi then None
    else if OneOf(text, lo, chars) then Some(lo)
    else FindFirst(text, chars, lo + 1, hi)
  }

  /** `text.rfind(c, lo, hi)`. */
  function FindLast(text: string, chars: string, lo: nat, hi: nat): (r: Option<nat>)
    requires lo <= hi <= |text|
    ensures r.Some? ==> lo <= r.value < hi && OneOf(text, r.value, chars)
    ensures r.Some? ==> forall i :: r.value < i < hi ==> !OneOf(text, i, chars)
    ensures r.None? ==> forall i :: lo <= i < hi ==> !OneOf(text, i, chars)
    decreases hi - lo
  {
    if lo == hi then None
    else if OneOf(text, hi - 1, chars) then Some(hi - 1)
    else FindLast(text, chars, lo, hi - 1)
  }

  /** `text.find(part, lo, hi)`. */
  function FindPart(text: string, part: string, lo: nat, hi: nat): (r: Option<nat>)
    requires lo <= hi <= |text|
    ensures r.Some? ==> lo <= r.value && r.value + |part| <= hi && OccursAt(text, part, r.value)
    ensures forall i :: lo <= i && i + |part| <= hi && (r.None? || i < r.value) ==> !OccursAt(text, part, i)
    decreases hi - lo
  {
    if hi - lo < |part| then None
    else if OccursAt(text, part, lo) then Some(lo)
    else if lo == hi then None
    else FindPart(text, part, lo + 1, hi)
  }

  // ── The host slice of a URL match ─────────────────────────────────────

  /** The host of an authority text[lo..hi], without userinfo, port or brackets. */
  function AuthorityHost(text: string, lo: nat, hi: nat): (host: Option<Span>)
    requires lo < hi <= |text|
    ensures host.Some? ==> lo <= host.value.start < host.value.end <= hi
    ensures host.Some? ==> forall i :: host.value.start <= i < host.value.end ==> !OneOf(text, i, "@")
  {
    var at := FindLast(text, "@", lo, hi);
    var hostStart := if at.Some? then at.value + 1 else lo;
    if hostStart >= hi then None
    else
      var bracketed := text[hostStart] == '[';
      var close := FindFirst(text, if bracketed then "]" else ":", hostStart, hi);
      var hostEnd := if close.Some? then close.value else hi;
      var first := if bracketed then hostStart + 1 else hostStart;
      if first >= hostEnd then None else Some(Span(first, hostEnd))
  }

  function UrlHost(text: string, url: Span): (host: Option<Span>)
    requires url.start < url.end <= |text|
    ensures host.Some? ==> url.start <= host.value.start < host.value.end <= url.end
    ensures host.Some? ==> forall i :: host.value.start <= i < host.value.end ==> !OneOf(text, i, "/?#@")
  {
    var separator := FindPart(text, "://", url.start, url.end);
    if separator.None? then None
    else
      var authStart := separator.value + 3;
      var delimiter := FindFirst(text, "/?#", authStart, url.end);
      var authEnd := if delimiter.Some? then delimiter.value else url.end;
      if authStart >= authEnd then None
      else
        var host := AuthorityHost(text, authStart, authEnd);
        assert forall i :: authStart <= i < authEnd ==> !OneOf(text, i, "/?#");
        assert forall i :: OneOf(text, i, "/?#@") ==> OneOf(text, i, "/?#") || OneOf(text, i, "@");
        host
  }

  /** No character of text[lo..hi] is one of these. */
  predicate NoneOf(text: string, lo: nat, hi: nat, chars: string) {
    hi <= |text| && forall i :: lo <= i < hi ==> text[i] !in chars
  }

  /** text[lo..end] is as much of text[lo..hi] as there is before the first of these characters. */
  predicate IsUntil(text: string, lo: nat, hi: nat, chars: string, end: nat) {
    lo <= end <= hi <= |text| && NoneOf(text, lo, end, chars) && (end == hi || text[end] in chars)
  }

  /** After the last at-sign, if there is one. */
  predicate IsAfterAt(text: string, lo: nat, hi: nat, from: nat) {
    lo <= from <= hi && NoneOf(text, from, hi, "@") && (from == lo || text[from - 1] == '@')
  }

  /** s is the host of text[lo..hi]: between brackets, or up to the port. */
  ghost predicate IsHostOf(text: string, lo: nat, hi: nat, s: Span) {
    s.start < s.end && exists from: nat :: IsAfterAt(text, lo, hi, from) && IsHostFrom(text, from, hi, s)
  }

  predicate IsHostFrom(text: string, from: nat, hi: nat, s: Span) {
    && from < hi <= |text|
    && (text[from] == '[' ==> s.start == from + 1 && IsUntil(text, from, hi, "]", s.end))
    && (text[from] != '[' ==> s.start == from && IsUntil(text, from, hi, ":", s.end))
  }

  /** s is the host of a URL: of what stands between the first "://" and the first slash, question mark or hash after it. */
  ghost predicate IsHostOfUrl(text: string, url: Span, s: Span) {
    exists separator: nat, end: nat :: CutsUrl(text, url, separator, end) && IsHostOf(text, separator + 3, end, s)
  }

  ghost predicate CutsUrl(text: string, url: Span, separator: nat, end: nat) {
    && url.start <= separator && separator + 3 <= url.end <= |text| && OccursAt(text, "://", separator)
    && (forall i :: url.start <= i < separator ==> !OccursAt(text, "://", i))
    && IsUntil(text, separator + 3, url.end, "/?#", end)
  }

  lemma UntilIsFirst(text: string, lo: nat, hi: nat, chars: string, end: nat)
    requires lo <= hi <= |text|
    ensures var first := FindFirst(text, chars, lo, hi);
      IsUntil(text, lo, hi, chars, end) <==> end == if first.Some? then first.value else hi
  {
    assert forall i :: 0 <= i < |text| ==> (OneOf(text, i, chars) <==> text[i] in chars);
    var first := FindFirst(text, chars, lo, hi);
    var at := if first.Some? then first.value else hi;
    assert forall i :: lo <= i < at ==> !OneOf(text, i, chars);
    assert IsUntil(text, lo, hi, chars, at);
  }

  lemma AfterAtIsLast(text: string, lo: nat, hi: nat, from: nat)
    requires lo <= hi <= |text|
    ensures var at := FindLast(text, "@", lo, hi);
      IsAfterAt(text, lo, hi, from) <==> from == if at.Some? then at.value + 1 else lo
  {
    assert forall i :: 0 <= i < |text| ==> (OneOf(text, i, "@") <==> text[i] == '@');
    var at := FindLast(text, "@", lo, hi);
    var after := if at.Some? then at.value + 1 else lo;
    assert forall i :: after <= i < hi ==> !OneOf(text, i, "@");
  }

  lemma AuthorityHostIff(text: string, lo: nat, hi: nat, s: Span)
    requires lo < hi <= |text|
    ensures AuthorityHost(text, lo, hi) == Some(s) <==> IsHostOf(text, lo, hi, s)
  {
    var at := FindLast(text, "@", lo, hi);
    var from := if at.Some? then at.value + 1 else lo;
    forall x: nat
      ensures IsAfterAt(text, lo, hi, x) <==> x == from
    {
      AfterAtIsLast(text, lo, hi, x);
    }
    assert IsHostOf(text, lo, hi, s) <==> s.start < s.end && IsAfterAt(text, lo, hi, from) && IsHostFrom(text, from, hi, s);
    if from < hi {
      UntilIsFirst(text, from, hi, "]", s.end);
      UntilIsFirst(text, from, hi, ":", s.end);
    }
  }

  lemma OneCut(text: string, url: Span, separator: nat, end: nat)
    requires url.start < url.end <= |text|
    ensures var first := FindPart(text, "://", url.start, url.end);
      CutsUrl(text, url, separator, end) <==>
        first == Some(separator) && IsUntil(text, separator + 3, url.end, "/?#", end)
  {
  }

  lemma UrlHostIff(text: string, url: Span, s: Span)
    requires url.start < url.end <= |text|
    ensures UrlHost(text, url) == Some(s) <==> IsHostOfUrl(text, url, s)
  {
    var first := FindPart(text, "://", url.start, url.end);
    if first.Some? {
      var d := FindFirst(text, "/?#", first.value + 3, url.end);
      OnlyCut(text, url, first.value, if d.Some? then d.value else url.end, s);
      HostOfCut(text, url, first.value, s);
    } else {
      forall separator: nat, end: nat
        ensures !CutsUrl(text, url, separator, end)
      {
        OneCut(text, url, separator, end);
      }
    }
  }

  lemma OnlyCut(text: string, url: Span, separator: nat, end: nat, s: Span)
    requires url.start < url.end <= |text| && FindPart(text, "://", url.start, url.end) == Some(separator)
    requires var d := FindFirst(text, "/?#", separator + 3, url.end); end == if d.Some? then d.value else url.end
    ensures IsHostOfUrl(text, url, s) <==> IsHostOf(text, separator + 3, end, s)
  {
    forall a: nat, b: nat
      ensures CutsUrl(text, url, a, b) <==> a == separator && b == end
    {
      OneCut(text, url, a, b);
      UntilIsFirst(text, separator + 3, url.end, "/?#", b);
    }
    assert CutsUrl(text, url, separator, end);
  }

  lemma HostOfCut(text: string, url: Span, separator: nat, s: Span)
    requires url.start < url.end <= |text| && FindPart(text, "://", url.start, url.end) == Some(separator)
    ensures var d := FindFirst(text, "/?#", separator + 3, url.end);
      UrlHost(text, url) == Some(s) <==> IsHostOf(text, separator + 3, if d.Some? then d.value else url.end, s)
  {
    var d := FindFirst(text, "/?#", separator + 3, url.end);
    var end := if d.Some? then d.value else url.end;
    if separator + 3 < end {
      AuthorityHostIff(text, separator + 3, end, s);
    }
  }

  lemma UrlHostExact(text: string, url: Span)
    requires url.start < url.end <= |text|
    ensures forall s :: UrlHost(text, url) == Some(s) <==> IsHostOfUrl(text, url, s)
  {
    forall s
      ensures UrlHost(text, url) == Some(s) <==> IsHostOfUrl(text, url, s)
    {
      UrlHostIff(text, url, s);
    }
  }

  method UrlHostSpan(text: string, url: Span) returns (host: Option<Span>)
    requires url.start < url.end <= |text|
    ensures host == UrlHost(text, url)
    ensures forall s :: host == Some(s) <==> IsHostOfUrl(text, url, s)
  {
    var separator := FindPart(text, "://", url.start, url.end);
    if separator.None? {
      UrlHostExact(text, url);
      return None;
    }
    var authStart := separator.value + 3;
    var authEnd := authStart;
    while authEnd < url.end && text[authEnd] !in "/?#"
      invariant authStart <= authEnd <= url.end
      invariant forall i :: authStart <= i < authEnd ==> !OneOf(text, i, "/?#")
    {
      authEnd := authEnd + 1;
    }
    assert authEnd < url.end ==> OneOf(text, authEnd, "/?#");
    if authStart >= authEnd {
      UrlHostExact(text, url);
      return None;
    }
    host := AuthorityHost(text, authStart, authEnd);
    UrlHostExact(text, url);
  }

  // ── Overlap tests ─────────────────────────────────────────────────────

  predicate Apart(a: Span, b: Span) {
    a.end <= b.start || b.end <= a.start
  }

  ghost predicate PairwiseApart(spans: seq<Span>) {
    forall i, j :: 0 <= i < j < |spans| ==> Apart(spans[i], spans[j])
  }

  ghost predicate ApartFromAll(s: Span, spans: seq<Span>) {
    forall i :: 0 <= i < |spans| ==> Apart(s, spans[i])
  }

  ghost predicate Covered(spans: seq<Span>, p: int) {
    exists i :: 0 <= i < |spans| && spans[i].start <= p < spans[i].end
  }

  /** One step of the sweep: blocked spans that ended are skipped for good. */
  method Overlaps(s: Span, blocked: seq<Span>, index: nat, length: nat) returns (hit: bool, next: nat)
    requires Matches(blocked, length) && index <= |blocked|
    requires forall k :: 0 <= k < index ==> blocked[k].end <= s.start
    ensures hit <==> !ApartFromAll(s, blocked)
    ensures next <= |blocked| && forall k :: 0 <= k < next ==> blocked[k].end <= s.start
    requires s.start < s.end
  {
    next := index;
    while next < |blocked| && blocked[next].end <= s.start
      invariant index <= next <= |blocked|
      invariant forall k :: 0 <= k < next ==> blocked[k].end <= s.start
    {
      next := next + 1;
    }
    hit := next < |blocked| && blocked[next].start < s.end;
    if hit {
      assert !Apart(s, blocked[next]);
    }
  }

  predicate SpanLe(a: Span, b: Span) {
    a.start < b.start || (a.start == b.start && a.end <= b.end)
  }

  lemma SpanLeLinear()
    ensures Sorting.Total(SpanLe) && Sorting.Antisymmetric(SpanLe)
  {
  }

  /** What merging keeps: separated spans that cover exactly the positions seen so far. */
  ghost predicate Merged(merged: seq<Span>, seen: seq<Span>, length: nat) {
    && merged != []
    && (forall k :: 0 <= k < |merged| ==> merged[k].start < merged[k].end <= length)
    && (forall k, m :: 0 <= k < m < |merged| ==> merged[k].end < merged[m].start)
    && (forall p :: Covered(merged, p) <==> Covered(seen, p))
  }

  function MergeOne(merged: seq<Span>, s: Span): seq<Span>
    requires merged != []
  {
    var last := merged[|merged| - 1];
    if s.start <= last.end then merged[|merged| - 1 := Span(last.start, if last.end < s.end then s.end else last.end)]
    else merged + [s]
  }

  lemma MergeStep(merged: seq<Span>, seen: seq<Span>, s: Span, length: nat)
    requires Merged(merged, seen, length) && s.start < s.end <= length
    requires merged[|merged| - 1].start <= s.start
    ensures Merged(MergeOne(merged, s), seen + [s], length)
  {
    CoveredAppend(seen, s);
    var last := merged[|merged| - 1];
    if s.start <= last.end {
      MergeLast(merged, last, s, MergeOne(merged, s));
    } else {
      CoveredAppend(merged, s);
    }
  }

  /** The merge of the first i + 1 spans. */
  function MergeAll(ordered: seq<Span>, i: nat): (merged: seq<Span>)
    requires i < |ordered|
    ensures merged != []
  {
    if i == 0 then [ordered[0]] else MergeOne(MergeAll(ordered, i - 1), ordered[i])
  }

  lemma {:induction false} MergeAllLast(ordered: seq<Span>, i: nat)
    requires i < |ordered| && Sorting.Sorted(ordered, SpanLe)
    ensures MergeAll(ordered, i)[|MergeAll(ordered, i)| - 1].start <= ordered[i].start
  {
    if i > 0 {
      MergeAllLast(ordered, i - 1);
      assert SpanLe(ordered[i - 1], ordered[i]);
    }
  }

  lemma {:induction false} MergeAllMerged(ordered: seq<Span>, i: nat, length: nat)
    requires i < |ordered| && Sorting.Sorted(ordered, SpanLe)
    requires forall k :: 0 <= k < |ordered| ==> ordered[k].start < ordered[k].end <= length
    ensures Merged(MergeAll(ordered, i), ordered[..i + 1], length)
  {
    if i == 0 {
      assert ordered[..1] == [ordered[0]];
    } else {
      MergeAllMerged(ordered, i - 1, length);
      MergeAllLast(ordered, i - 1);
      assert SpanLe(ordered[i - 1], ordered[i]);
      assert ordered[..i + 1] == ordered[..i] + [ordered[i]];
      MergeStep(MergeAll(ordered, i - 1), ordered[..i], ordered[i], length);
    }
  }

  lemma MergedSorted(spans: seq<Span>, length: nat)
    requires spans != [] && forall i :: 0 <= i < |spans| ==> spans[i].start < spans[i].end <= length
    ensures var ordered := Sorting.Sort(spans, SpanLe);
      |ordered| == |spans| && Merged(MergeAll(ordered, |ordered| - 1), spans, length)
  {
    var ordered := Sorting.Sort(spans, SpanLe);
    SortedSpansKeep(spans);
    forall i | 0 <= i < |ordered|
      ensures ordered[i].start < ordered[i].end <= length
    {
      assert ordered[i] in spans;
    }
    MergeAllMerged(ordered, |ordered| - 1, length);
    assert ordered[..|ordered|] == ordered;
  }

  /** Overlapping and touching spans become one; the covered positions stay the same. */
  method MergeSpans(spans: seq<Span>, length: nat) returns (merged: seq<Span>)
    requires forall i :: 0 <= i < |spans| ==> spans[i].start < spans[i].end <= length
    ensures Matches(merged, length)
    ensures forall i, j :: 0 <= i < j < |merged| ==> merged[i].end < merged[j].start
    ensures forall p :: Covered(merged, p) <==> Covered(spans, p)
  {
    if spans == [] {
      return [];
    }
    MergedSorted(spans, length);
    var ordered := Sorting.Sort(spans, SpanLe);
    merged := [ordered[0]];
    for i := 1 to |ordered|
      invariant merged == MergeAll(ordered, i - 1)
    {
      var last, s := merged[|merged| - 1], ordered[i];
      if s.start <= last.end {
        merged := merged[|merged| - 1 := Span(last.start, if last.end < s.end then s.end else last.end)];
      } else {
        merged := merged + [s];
      }
    }
  }

  lemma SortedSpansKeep(spans: seq<Span>)
    ensures Sorting.Sorted(Sorting.Sort(spans, SpanLe), SpanLe)
    ensures |Sorting.Sort(spans, SpanLe)| == |spans|
    ensures forall s :: s in Sorting.Sort(spans, SpanLe) <==> s in spans
    ensures forall p :: Covered(Sorting.Sort(spans, SpanLe), p) <==> Covered(spans, p)
  {
    SpanLeLinear();
    Sorting.SortSpec(spans, SpanLe);
    Sorting.SortMembers(spans, SpanLe);
    var ordered := Sorting.Sort(spans, SpanLe);
    forall p
      ensures Covered(ordered, p) <==> Covered(spans, p)
    {
      if i :| 0 <= i < |ordered| && ordered[i].start <= p < ordered[i].end {
        assert ordered[i] in spans;
      }
      if i :| 0 <= i < |spans| && spans[i].start <= p < spans[i].end {
        assert spans[i] in ordered;
      }
    }
  }

  lemma CoveredAppend(spans: seq<Span>, s: Span)
    ensures forall p :: Covered(spans + [s], p) <==> Covered(spans, p) || s.start <= p < s.end
  {
    forall p
      ensures Covered(spans + [s], p) <==> Covered(spans, p) || s.start <= p < s.end
    {
      var all := spans + [s];
      assert all[|spans|] == s;
      if i :| 0 <= i < |spans| && spans[i].start <= p < spans[i].end {
        assert all[i] == spans[i];
      }
    }
  }

  lemma MergeLast(before: seq<Span>, last: Span, s: Span, merged: seq<Span>)
    requires before != [] && last == before[|before| - 1]
    requires last.start <= s.start <= last.end && last.start < last.end
    requires merged == before[|before| - 1 := Span(last.start, if last.end < s.end then s.end else last.end)]
    ensures forall p :: Covered(merged, p) <==> Covered(before, p) || s.start <= p < s.end
  {
    var n := |before| - 1;
    forall p
      ensures Covered(merged, p) <==> Covered(before, p) || s.start <= p < s.end
    {
      if i :| 0 <= i < |before| && before[i].start <= p < before[i].end {
        assert merged[i].start <= p < merged[i].end;
      }
      if i :| 0 <= i < |merged| && merged[i].start <= p < merged[i].end {
        assert i < n ==> before[i] == merged[i];
        assert i == n && p < last.end ==> before[n].start <= p < before[n].end;
      }
      assert s.start <= p < s.end ==> merged[n].start <= p < merged[n].end;
    }
  }

  lemma OverlapByCoverage(s: Span, a: seq<Span>, b: seq<Span>, i: nat)
    requires i < |b| && s.start < s.end && b[i].start < b[i].end && !Apart(s, b[i])
    requires forall p :: Covered(a, p) <==> Covered(b, p)
    ensures !ApartFromAll(s, a)
  {
    var p := if s.start < b[i].start then b[i].start else s.start;
    assert Covered(b, p);
    var j :| 0 <= j < |a| && a[j].start <= p < a[j].end;
    assert !Apart(s, a[j]);
  }

  /** A nonempty span avoids every span of two families alike when they cover the same positions. */
  lemma ApartByCoverage(s: Span, a: seq<Span>, b: seq<Span>)
    requires s.start < s.end
    requires forall i :: 0 <= i < |a| ==> a[i].start < a[i].end
    requires forall i :: 0 <= i < |b| ==> b[i].start < b[i].end
    requires forall p :: Covered(a, p) <==> Covered(b, p)
    ensures ApartFromAll(s, a) <==> ApartFromAll(s, b)
  {
    if i :| 0 <= i < |b| && !Apart(s, b[i]) {
      OverlapByCoverage(s, a, b, i);
    }
    if i :| 0 <= i < |a| && !Apart(s, a[i]) {
      OverlapByCoverage(s, b, a, i);
    }
  }

  // ── Host spans ────────────────────────────────────────────────────────

  /** The domain part of an email match. */
  function EmailDomain(text: string, m: Span): (domain: Span)
    requires m.start < m.end <= |text|
    ensures m.start <= domain.start <= domain.end == m.end
  {
    var at := FindLast(text, "@", m.start, m.end);
    Span(if at.Some? then at.value + 1 else m.start, m.end)
  }

  /** What the three regexes found in one text. */
  datatype Found = Found(urls: seq<Span>, emails: seq<Span>, domains: seq<Span>)

  ghost predicate FoundIn(f: Found, length: nat) {
    Matches(f.urls, length) && Matches(f.emails, length) && Matches(f.domains, length)
  }

  ghost predicate IsUrlHost(text: string, urls: seq<Span>, s: Span)
    requires Matches(urls, |text|)
  {
    exists u :: u in urls && UrlHost(text, u) == Some(s)
  }

  /** An email that overlaps no URL. */
  ghost predicate FreeEmail(f: Found, e: Span) {
    e in f.emails && ApartFromAll(e, f.urls)
  }

  ghost predicate IsEmailDomain(text: string, f: Found, s: Span)
    requires FoundIn(f, |text|)
  {
    exists e :: FreeEmail(f, e) && s == EmailDomain(text, e) && s.start < s.end
  }

  /** A domain run outside every URL and free email. */
  ghost predicate IsBareRun(f: Found, s: Span) {
    s in f.domains && ApartFromAll(s, f.urls) && forall e :: FreeEmail(f, e) ==> Apart(s, e)
  }

  ghost predicate IsHostSpan(text: string, f: Found, s: Span)
    requires FoundIn(f, |text|)
  {
    IsUrlHost(text, f.urls, s) || IsEmailDomain(text, f, s) || IsBareRun(f, s)
  }

  method UrlHosts(text: string, urls: seq<Span>) returns (spans: seq<Span>)
    requires Matches(urls, |text|)
    ensures forall s :: s in spans <==> IsUrlHost(text, urls, s)
    ensures PairwiseApart(spans)
  {
    spans := [];
    for i := 0 to |urls|
      invariant Matches(urls[..i], |text|)
      invariant forall s :: s in spans <==> IsUrlHost(text, urls[..i], s)
      invariant PairwiseApart(spans)
    {
      MatchesPrefix(urls, i + 1, |text|);
      assert urls[..i + 1] == urls[..i] + [urls[i]];
      var host := UrlHostSpan(text, urls[i]);
      if host.Some? {
        forall s | s in spans
          ensures Apart(s, host.value)
        {
          var u :| u in urls[..i] && UrlHost(text, u) == Some(s);
          var k :| 0 <= k < i && urls[k] == u;
        }
        spans := spans + [host.value];
      }
    }
    assert urls[..|urls|] == urls;
  }

  /** The free emails among the first i. */
  ghost function FreeEmails(f: Found, i: nat): seq<Span>
    requires i <= |f.emails|
  {
    if i == 0 then []
    else FreeEmails(f, i - 1) + (if ApartFromAll(f.emails[i - 1], f.urls) then [f.emails[i - 1]] else [])
  }

  /** The nonempty domains of some emails. */
  function DomainsOf(text: string, emails: seq<Span>): seq<Span>
    requires forall e :: e in emails ==> e.start < e.end <= |text|
  {
    if emails == [] then []
    else
      var domain := EmailDomain(text, emails[|emails| - 1]);
      DomainsOf(text, emails[..|emails| - 1]) + (if domain.start < domain.end then [domain] else [])
  }

  lemma {:induction false} FreeEmailsExact(f: Found, i: nat, length: nat)
    requires i <= |f.emails| && Matches(f.emails, length)
    ensures forall e :: e in FreeEmails(f, i) <==> e in f.emails[..i] && FreeEmail(f, e)
    ensures Matches(FreeEmails(f, i), length)
  {
    if i > 0 {
      FreeEmailsExact(f, i - 1, length);
      assert f.emails[..i] == f.emails[..i - 1] + [f.emails[i - 1]];
      var free := FreeEmails(f, i - 1);
      forall k | 0 <= k < |free|
        ensures free[k].end <= f.emails[i - 1].start
      {
        assert free[k] in free;
        var m :| 0 <= m < i - 1 && f.emails[m] == free[k];
      }
    }
  }

  lemma {:induction false} DomainOrigin(text: string, emails: seq<Span>, k: nat) returns (m: nat)
    requires (forall e :: e in emails ==> e.start < e.end <= |text|) && k < |DomainsOf(text, emails)|
    ensures m < |emails| && DomainsOf(text, emails)[k] == EmailDomain(text, emails[m])
    ensures DomainsOf(text, emails)[k].start < DomainsOf(text, emails)[k].end
    decreases |emails|
  {
    var front := emails[..|emails| - 1];
    if k < |DomainsOf(text, front)| {
      m := DomainOrigin(text, front, k);
    } else {
      m := |emails| - 1;
    }
  }

  lemma {:induction false} DomainListed(text: string, emails: seq<Span>, m: nat)
    requires (forall e :: e in emails ==> e.start < e.end <= |text|) && m < |emails|
    requires EmailDomain(text, emails[m]).start < EmailDomain(text, emails[m]).end
    ensures EmailDomain(text, emails[m]) in DomainsOf(text, emails)
    decreases |emails|
  {
    if m < |emails| - 1 {
      DomainListed(text, emails[..|emails| - 1], m);
    }
  }

  lemma {:induction false} DomainsOfApart(text: string, emails: seq<Span>)
    requires Matches(emails, |text|)
    ensures PairwiseApart(DomainsOf(text, emails))
    decreases |emails|
  {
    if emails != [] {
      var front, last := emails[..|emails| - 1], emails[|emails| - 1];
      DomainsOfApart(text, front);
      var domains := DomainsOf(text, front);
      forall k | 0 <= k < |domains|
        ensures Apart(domains[k], EmailDomain(text, last))
      {
        var m := DomainOrigin(text, front, k);
        assert emails[m].end <= last.start;
      }
    }
  }

  lemma EmailDomainsExact(text: string, f: Found)
    requires FoundIn(f, |text|)
    ensures Matches(FreeEmails(f, |f.emails|), |text|)
    ensures forall e :: e in FreeEmails(f, |f.emails|) <==> FreeEmail(f, e)
    ensures forall s :: s in DomainsOf(text, FreeEmails(f, |f.emails|)) <==> IsEmailDomain(text, f, s)
  {
    FreeEmailsExact(f, |f.emails|, |text|);
    assert f.emails[..|f.emails|] == f.emails;
    var free := FreeEmails(f, |f.emails|);
    forall s
      ensures s in DomainsOf(text, free) <==> IsEmailDomain(text, f, s)
    {
      if s in DomainsOf(text, free) {
        var k :| 0 <= k < |DomainsOf(text, free)| && DomainsOf(text, free)[k] == s;
        var m := DomainOrigin(text, free, k);
        assert free[m] in free && FreeEmail(f, free[m]);
      }
      if IsEmailDomain(text, f, s) {
        var e :| FreeEmail(f, e) && s == EmailDomain(text, e) && s.start < s.end;
        assert e in free;
        var m :| 0 <= m < |free| && free[m] == e;
        DomainListed(text, free, m);
      }
    }
  }

  method EmailDomains(text: string, f: Found) returns (spans: seq<Span>, free: seq<Span>)
    requires FoundIn(f, |text|)
    ensures free == FreeEmails(f, |f.emails|) && forall e :: e in free ==> e.start < e.end <= |text|
    ensures spans == DomainsOf(text, free)
  {
    spans, free := [], [];
    var index: nat := 0;
    for i := 0 to |f.emails|
      invariant index <= |f.urls|
      invariant i < |f.emails| ==> forall k :: 0 <= k < index ==> f.urls[k].end <= f.emails[i].start
      invariant free == FreeEmails(f, i) && forall e :: e in free ==> e.start < e.end <= |text|
      invariant spans == DomainsOf(text, free)
    {
      var e := f.emails[i];
      var hit;
      hit, index := Overlaps(e, f.urls, index, |text|);
      if hit {
        continue;
      }
      DomainsOfAppend(text, free, e);
      var domain := EmailDomain(text, e);
      if domain.start < e.end {
        spans := spans + [domain];
      }
      free := free + [e];
    }
  }

  lemma DomainsOfAppend(text: string, emails: seq<Span>, e: Span)
    requires forall x :: x in emails + [e] ==> x.start < x.end <= |text|
    ensures DomainsOf(text, emails + [e]) ==
      DomainsOf(text, emails) + (if EmailDomain(text, e).start < e.end then [EmailDomain(text, e)] else [])
  {
    assert (emails + [e])[..|emails|] == emails;
  }

  method BareRuns(f: Found, blocked: seq<Span>, length: nat) returns (spans: seq<Span>)
    requires FoundIn(f, length)
    requires forall i :: 0 <= i < |blocked| ==> blocked[i].start < blocked[i].end <= length
    ensures forall s :: s in spans <==> s in f.domains && ApartFromAll(s, blocked)
    ensures PairwiseApart(spans)
  {
    var merged := MergeSpans(blocked, length);
    spans := [];
    var index: nat := 0;
    for i := 0 to |f.domains|
      invariant index <= |merged|
      invariant i < |f.domains| ==> forall k :: 0 <= k < index ==> merged[k].end <= f.domains[i].start
      invariant forall s :: s in spans <==> s in f.domains[..i] && ApartFromAll(s, blocked)
      invariant PairwiseApart(spans)
    {
      var d := f.domains[i];
      var hit;
      hit, index := Overlaps(d, merged, index, length);
      ApartByCoverage(d, blocked, merged);
      assert f.domains[..i + 1] == f.domains[..i] + [d];
      if !hit {
        forall s | s in spans
          ensures Apart(s, d)
        {
          var k :| 0 <= k < i && f.domains[k] == s;
        }
        spans := spans + [d];
      }
    }
    assert f.domains[..|f.domains|] == f.domains;
  }

  lemma BlockedIsUrlsAndFreeEmails(f: Found, free: seq<Span>, s: Span)
    requires forall e :: e in free <==> FreeEmail(f, e)
    ensures s in f.domains && ApartFromAll(s, f.urls + free) <==> IsBareRun(f, s)
  {
    var blocked := f.urls + free;
    if ApartFromAll(s, blocked) {
      forall k | 0 <= k < |f.urls|
        ensures Apart(s, f.urls[k])
      {
        assert blocked[k] == f.urls[k];
      }
      forall e | FreeEmail(f, e)
        ensures Apart(s, e)
      {
        assert e in free;
        var k :| 0 <= k < |free| && free[k] == e;
        assert blocked[|f.urls| + k] == e;
      }
    }
    if IsBareRun(f, s) {
      forall k | 0 <= k < |blocked|
        ensures Apart(s, blocked[k])
      {
        if k >= |f.urls| {
          assert blocked[k] in free;
        }
      }
    }
  }

  lemma HostKindsApart(text: string, f: Found, a: Span, b: Span)
    requires FoundIn(f, |text|)
    ensures IsUrlHost(text, f.urls, a) && (IsEmailDomain(text, f, b) || IsBareRun(f, b)) ==> Apart(a, b)
    ensures !IsUrlHost(text, f.urls, a) && IsEmailDomain(text, f, a) && IsBareRun(f, b) ==> Apart(a, b)
  {
    if IsUrlHost(text, f.urls, a) {
      var u :| u in f.urls && UrlHost(text, u) == Some(a);
      var k :| 0 <= k < |f.urls| && f.urls[k] == u;
      if IsBareRun(f, b) {
        assert Apart(b, f.urls[k]);
      } else if IsEmailDomain(text, f, b) {
        var e :| FreeEmail(f, e) && b == EmailDomain(text, e) && b.start < b.end;
        assert Apart(e, f.urls[k]);
      }
    } else if IsEmailDomain(text, f, a) && IsBareRun(f, b) {
      var e :| FreeEmail(f, e) && a == EmailDomain(text, e) && a.start < a.end;
      assert Apart(b, e);
    }
  }

  /** The host of a URL, the part after the last at-sign of an email that no URL overlaps, or a run that overlaps neither. */
  ghost predicate StandsAsHost(text: string, f: Found, s: Span) {
    || (exists u :: u in f.urls && IsHostOfUrl(text, u, s))
    || (exists e :: FreeEmail(f, e) && s.start < s.end == e.end && IsAfterAt(text, e.start, e.end, s.start))
    || IsBareRun(f, s)
  }

  lemma HostSpanIff(text: string, f: Found, s: Span)
    requires FoundIn(f, |text|)
    ensures IsHostSpan(text, f, s) <==> StandsAsHost(text, f, s)
  {
    forall u | u in f.urls
      ensures UrlHost(text, u) == Some(s) <==> IsHostOfUrl(text, u, s)
    {
      UrlHostIff(text, u, s);
    }
    forall e | e in f.emails
      ensures s == EmailDomain(text, e) <==> s.end == e.end && IsAfterAt(text, e.start, e.end, s.start)
    {
      AfterAtIsLast(text, e.start, e.end, s.start);
    }
  }

  /** Hosts of URLs, then domains of free emails, then bare runs: exactly the host spans, and no two overlap. */
  method CollapsibleHostSpans(text: string, f: Found) returns (spans: seq<Span>)
    requires FoundIn(f, |text|)
    ensures forall s :: s in spans <==> IsHostSpan(text, f, s)
    ensures forall s :: s in spans <==> StandsAsHost(text, f, s)
    ensures PairwiseApart(spans)
    ensures forall i :: 0 <= i < |spans| ==> spans[i].start < spans[i].end <= |text|
  {
    var hosts := UrlHosts(text, f.urls);
    var domains, free := EmailDomains(text, f);
    EmailDomainsExact(text, f);
    DomainsOfApart(text, free);
    var blocked := f.urls + free;
    forall i | 0 <= i < |blocked|
      ensures blocked[i].start < blocked[i].end <= |text|
    {
      if i >= |f.urls| {
        assert blocked[i] in free;
        var k :| 0 <= k < |f.emails| && f.emails[k] == blocked[i];
      }
    }
    var runs := BareRuns(f, blocked, |text|);
    forall s
      ensures s in runs <==> IsBareRun(f, s)
    {
      BlockedIsUrlsAndFreeEmails(f, free, s);
    }
    spans := hosts + domains + runs;
    JoinKinds(text, f, hosts, domains, runs);
    forall s
      ensures s in spans <==> StandsAsHost(text, f, s)
    {
      HostSpanIff(text, f, s);
    }
  }

  lemma JoinKinds(text: string, f: Found, hosts: seq<Span>, domains: seq<Span>, runs: seq<Span>)
    requires FoundIn(f, |text|)
    requires PairwiseApart(hosts) && PairwiseApart(domains) && PairwiseApart(runs)
    requires forall s :: s in hosts <==> IsUrlHost(text, f.urls, s)
    requires forall s :: s in domains <==> IsEmailDomain(text, f, s)
    requires forall s :: s in runs <==> IsBareRun(f, s)
    ensures forall s :: s in hosts + domains + runs <==> IsHostSpan(text, f, s)
    ensures PairwiseApart(hosts + domains + runs)
    ensures forall s :: s in hosts + domains + runs ==> s.start < s.end <= |text|
  {
    var spans := hosts + domains + runs;
    forall i, j | 0 <= i < j < |spans|
      ensures Apart(spans[i], spans[j])
    {
      HostKindsApart(text, f, spans[i], spans[j]);
      var h, d := |hosts|, |hosts| + |domains|;
      if i < h {
        assert spans[i] == hosts[i] && hosts[i] in hosts;
        if j < h {
          assert spans[j] == hosts[j];
        } else if j < d {
          assert spans[j] == domains[j - h] && domains[j - h] in domains;
        } else {
          assert spans[j] == runs[j - d] && runs[j - d] in runs;
        }
      } else if i < d {
        assert spans[i] == domains[i - h] && domains[i - h] in domains;
        if j < d {
          assert spans[j] == domains[j - h];
        } else {
          assert spans[j] == runs[j - d] && runs[j - d] in runs;
        }
      } else {
        assert spans[i] == runs[i - d] && spans[j] == runs[j - d];
      }
    }
  }
}
