/** URL and domain normalization. Strings are sequences of code points. */
module UrlNormal {
  import opened Wrappers
  import opened HostSpans
  import opened Texts
  import opened OffsetMap

  // ── What is taken from Python's libraries ─────────────────────────────

  /** `str.lower`, `str.isdigit`, the two address parsers and the IDNA codec. */
  datatype HostLib = HostLib(
    lower: string -> string,
    isDigit: char -> bool,
    isV4: string -> bool,
    isV6: string -> bool,
    idnaEncode: string -> Option<string>,
    idnaAccepts: string -> bool)

  const DELIMITERS := "/?#@:[]"

  /** Lower-casing is idempotent, neither adds nor removes a delimiter, leaves host characters alone, and keeps brackets and IPv6 addresses. */
  ghost predicate LowerLaws(lib: HostLib) {
    && (forall s :: lib.lower(lib.lower(s)) == lib.lower(s))
    && (forall s, c :: c in DELIMITERS ==> (c in lib.lower(s) <==> c in s))
    && (forall s :: (forall i :: 0 <= i < |s| ==> IsHostChar(s[i])) ==> lib.lower(s) == s)
    && (forall s :: lib.lower("[" + s + "]") == "[" + lib.lower(s) + "]")
    && (forall s :: lib.isV6(s) ==> lib.isV6(lib.lower(s)))
  }

  /** Among ASCII characters the digits are 0-9, and no digit is a delimiter or a dot. */
  ghost predicate DigitLaws(lib: HostLib) {
    && (forall c: char :: (c as int < 128) ==> (lib.isDigit(c) <==> '0' <= c <= '9'))
    && (forall c :: lib.isDigit(c) ==> c !in DELIMITERS)
  }

  ghost predicate Laws(lib: HostLib) {
    LowerLaws(lib) && DigitLaws(lib)
  }

  predicate IsAscii(s: string) {
    forall i :: 0 <= i < |s| ==> s[i] as int < 128
  }

  // ── Domains ───────────────────────────────────────────────────────────

  /** `s.split(".")`. */
  function Labels(s: string): (labels: seq<string>)
    ensures labels != []
    decreases |s|
  {
    var dot := FindLast(s, ".", 0, |s|);
    if dot.None? then [s] else Labels(s[..dot.value]) + [s[dot.value + 1..]]
  }

  predicate IsAlpha(c: char) {
    'a' <= c <= 'z' || 'A' <= c <= 'Z'
  }

  predicate IsLabelChar(c: char) {
    'a' <= c <= 'z' || '0' <= c <= '9' || c == '-'
  }

  /** Letters, digits and inner hyphens, at most 63 characters. */
  predicate LabelOk(l: string) {
    && 1 <= |l| <= 63
    && (forall i :: 0 <= i < |l| ==> IsLabelChar(l[i]))
    && l[0] != '-' && l[|l| - 1] != '-'
  }

  predicate TldShapeOk(tld: string) {
    || (IsAscii(tld) && |tld| >= 2 && forall i :: 0 <= i < |tld| ==> IsAlpha(tld[i]))
    || "xn--" <= tld
  }

  function DropRootDot(host: string): string {
    if host != "" && host[|host| - 1] == '.' then host[..|host| - 1] else host
  }

  function NormalizeDomain(lib: HostLib, value: string): Option<string> {
    var host := DropRootDot(lib.lower(value));
    if host == "" || |host| > 253 || !IsAscii(host) then None
    else
      var labels := Labels(host);
      if |labels| < 2 || !TldShapeOk(labels[|labels| - 1]) then None
      else if exists l :: l in labels && !LabelOk(l) then None
      else if !lib.idnaAccepts(host) then None
      else Some(host)
  }

  function IdnaHost(lib: HostLib, host: string): Option<string> {
    if IsAscii(host) then Some(host)
    else if |host| > 253 || exists l :: l in Labels(host) && |l| > 63 then None
    else lib.idnaEncode(host)
  }

  // ── Hosts of URLs ─────────────────────────────────────────────────────

  predicate DigitsAndDots(lib: HostLib, s: string) {
    forall i :: 0 <= i < |s| ==> lib.isDigit(s[i]) || s[i] == '.'
  }

  function NormalizeUrlHost(lib: HostLib, host: string): Option<string> {
    if host == "" then None
    else if host[0] == '[' then
      if host[|host| - 1] != ']' || !lib.isV6(host[1..|host| - 1]) then None else Some(lib.lower(host))
    else if DigitsAndDots(lib, host) then
      if lib.isV4(host) then Some(host) else None
    else
      var encoded := IdnaHost(lib, host);
      if encoded.None? || NormalizeDomain(lib, encoded.value).None? then None else Some(lib.lower(encoded.value))
  }

  // ── URLs ──────────────────────────────────────────────────────────────

  predicate IsScheme(s: string) {
    s == "http" || s == "https" || s == "ftp" || s == "sftp"
  }

  /** Nothing, or a colon and one to five digits whose value is a port number. */
  predicate PortOk(port: string) {
    port == "" || (
      && 2 <= |port| <= 6 && port[0] == ':'
      && IsDigits(port[1..])
      && DigitsValue(port[1..]) <= 65535)
  }

  /** A URL cut into its written parts; only the scheme is lower-cased. */
  datatype Parts = Parts(scheme: string, userinfo: string, at: string, host: string, port: string, tail: string)

  function Print(p: Parts): string {
    p.scheme + "://" + p.userinfo + p.at + p.host + p.port + p.tail
  }

  function Min(a: nat, b: nat): nat {
    if a < b then a else b
  }

  /** Where the first of the three delimiters stands, each searched for on its own. */
  function AuthorityEnd(rest: string): nat {
    var slash, question, hash := FindFirst(rest, "/", 0, |rest|), FindFirst(rest, "?", 0, |rest|), FindFirst(rest, "#", 0, |rest|);
    var a := if slash.Some? then Min(|rest|, slash.value) else |rest|;
    var b := if question.Some? then Min(a, question.value) else a;
    if hash.Some? then Min(b, hash.value) else b
  }

  /** Host and port of an authority without its userinfo. */
  function SplitHostPort(hostport: string): Option<(string, string)> {
    if hostport != "" && hostport[0] == '[' then
      var close := FindFirst(hostport, "]", 0, |hostport|);
      if close.None? then None
      else Some((hostport[..close.value + 1], hostport[close.value + 1..]))
    else
      var colon := FindFirst(hostport, ":", 0, |hostport|);
      if colon.None? then Some((hostport, ""))
      else Some((hostport[..colon.value], hostport[colon.value..]))
  }

  function SplitAuthority(scheme: string, authority: string, tail: string): Option<Parts> {
    var at := FindLast(authority, "@", 0, |authority|);
    var userinfo := if at.Some? then authority[..at.value] else "";
    var hostport := if at.Some? then authority[at.value + 1..] else authority;
    var hp := SplitHostPort(hostport);
    if hp.None? || !PortOk(hp.value.1) then None
    else Some(Parts(scheme, userinfo, if at.Some? then "@" else "", hp.value.0, hp.value.1, tail))
  }

  function SplitUrl(lib: HostLib, raw: string): Option<Parts> {
    var separator := FindPart(raw, "://", 0, |raw|);
    if separator.None? || !IsScheme(lib.lower(raw[..separator.value])) then None
    else
      var rest := raw[separator.value + 3..];
      var end := AuthorityEnd(rest);
      if end <= |rest| then SplitAuthority(lib.lower(raw[..separator.value]), rest[..end], rest[end..])
      else None
  }

  function NormalizeUrl(lib: HostLib, raw: string): Option<string> {
    var parts := SplitUrl(lib, raw);
    if parts.None? then None
    else
      var host := NormalizeUrlHost(lib, parts.value.host);
      if host.None? then None else Some(Print(parts.value.(host := host.value)))
  }

  // ── Printing and splitting are inverse ────────────────────────────────

  predicate Free(s: string, chars: string) {
    forall i :: 0 <= i < |s| ==> s[i] !in chars
  }

  /** A host whose end the splitter can find: bracketed, or without colon and opening bracket. */
  predicate HostShape(host: string) {
    && Free(host, "/?#@")
    && if host != "" && host[0] == '[' then
         |host| >= 2 && host[|host| - 1] == ']' && Free(host[..|host| - 1], "]")
       else Free(host, ":")
  }

  predicate PartsShape(p: Parts) {
    && IsScheme(p.scheme)
    && Free(p.userinfo, "/?#") && (p.at == "@" || (p.at == "" && p.userinfo == ""))
    && HostShape(p.host) && PortOk(p.port)
    && (p.tail == "" || p.tail[0] in "/?#")
  }

  lemma FreeConcat(a: string, b: string, chars: string)
    ensures Free(a + b, chars) <==> Free(a, chars) && Free(b, chars)
  {
    if Free(a + b, chars) {
      assert forall i :: 0 <= i < |a| ==> a[i] == (a + b)[i];
      assert forall i :: 0 <= i < |b| ==> b[i] == (a + b)[|a| + i];
    }
  }

  lemma FreePrefix(s: string, at: nat, chars: string)
    requires at <= |s| && Free(s[..at], chars)
    ensures forall i :: 0 <= i < at ==> !OneOf(s, i, chars)
  {
    assert forall i :: 0 <= i < at ==> s[..at][i] == s[i];
  }

  lemma PrefixFree(s: string, at: nat, chars: string)
    requires at <= |s| && forall i :: 0 <= i < at ==> !OneOf(s, i, chars)
    ensures Free(s[..at], chars)
  {
    forall i | 0 <= i < at
      ensures s[..at][i] !in chars
    {
      assert !OneOf(s, i, chars);
    }
  }

  lemma FreeSuffix(s: string, at: nat, chars: string)
    requires at <= |s| && Free(s[at..], chars)
    ensures forall i :: at <= i < |s| ==> !OneOf(s, i, chars)
  {
    forall i | at <= i < |s|
      ensures s[i] !in chars
    {
      assert s[at..][i - at] == s[i];
    }
  }

  lemma AuthorityEndIs(rest: string, end: nat)
    requires end <= |rest| && Free(rest[..end], "/?#") && (end == |rest| || rest[end] in "/?#")
    ensures AuthorityEnd(rest) == end
  {
    forall i | 0 <= i < end
      ensures !OneOf(rest, i, "/") && !OneOf(rest, i, "?") && !OneOf(rest, i, "#")
    {
      assert rest[..end][i] == rest[i];
    }
    if end < |rest| {
      assert OneOf(rest, end, "/") || OneOf(rest, end, "?") || OneOf(rest, end, "#");
    }
  }

  /** The three separate searches find the first of the delimiters. */
  lemma AuthorityEndExact(rest: string)
    ensures var end := AuthorityEnd(rest);
      end <= |rest| && Free(rest[..end], "/?#") && (end == |rest| || rest[end] in "/?#")
  {
    var first := FindFirst(rest, "/?#", 0, |rest|);
    var end := if first.Some? then first.value else |rest|;
    forall i | 0 <= i < end
      ensures rest[..end][i] !in "/?#"
    {
      assert !OneOf(rest, i, "/?#");
    }
    AuthorityEndIs(rest, end);
  }

  lemma FindFirstIs(s: string, chars: string, at: nat)
    requires at < |s| && s[at] in chars && Free(s[..at], chars)
    ensures FindFirst(s, chars, 0, |s|) == Some(at)
  {
    assert OneOf(s, at, chars);
    FreePrefix(s, at, chars);
  }

  lemma FindFirstNone(s: string, chars: string)
    requires Free(s, chars)
    ensures FindFirst(s, chars, 0, |s|) == None
  {
  }

  lemma FindLastIs(s: string, chars: string, at: nat)
    requires at < |s| && s[at] in chars && Free(s[at + 1..], chars)
    ensures FindLast(s, chars, 0, |s|) == Some(at)
  {
    assert OneOf(s, at, chars);
    FreeSuffix(s, at + 1, chars);
  }

  lemma FindLastNone(s: string, chars: string)
    requires Free(s, chars)
    ensures FindLast(s, chars, 0, |s|) == None
  {
  }

  lemma SplitHostPortInverse(host: string, port: string)
    requires HostShape(host) && PortOk(port)
    ensures SplitHostPort(host + port) == Some((host, port))
  {
    var hp := host + port;
    if host != "" && host[0] == '[' {
      assert hp[..|host| - 1] == host[..|host| - 1];
      FindFirstIs(hp, "]", |host| - 1);
    } else {
      if port == "" {
        assert hp == host;
        FindFirstNone(host, ":");
      } else {
        assert hp[..|host|] == host;
        FindFirstIs(hp, ":", |host|);
      }
    }
  }

  lemma PortIsFree(port: string)
    requires PortOk(port)
    ensures Free(port, "/?#@")
  {
    if port != "" {
      forall i | 0 <= i < |port|
        ensures port[i] !in "/?#@"
      {
        if i > 0 {
          assert port[i] == port[1..][i - 1];
        }
      }
    }
  }

  lemma HostPortFree(host: string, port: string)
    requires HostShape(host) && PortOk(port)
    ensures Free(host + port, "/?#@") && Free(host + port, "/?#") && Free(host + port, "@")
  {
    PortIsFree(port);
    FreeConcat(host, port, "/?#@");
    forall i | 0 <= i < |host + port|
      ensures (host + port)[i] !in "/?#" && (host + port)[i] !in "@"
    {
      assert (host + port)[i] !in "/?#@";
    }
  }

  /** The last at-sign is the one between userinfo and host. */
  lemma SplitAuthorityAt(scheme: string, userinfo: string, at: string, hostport: string, tail: string)
    requires Free(hostport, "@") && (at == "@" || (at == "" && userinfo == ""))
    ensures SplitAuthority(scheme, userinfo + at + hostport, tail) ==
      var hp := SplitHostPort(hostport);
      if hp.None? || !PortOk(hp.value.1) then None else Some(Parts(scheme, userinfo, at, hp.value.0, hp.value.1, tail))
  {
    var authority := userinfo + at + hostport;
    if at == "@" {
      assert authority[|userinfo| + 1..] == hostport;
      FindLastIs(authority, "@", |userinfo|);
      assert authority[..|userinfo|] == userinfo;
    } else {
      assert authority == hostport;
      FindLastNone(authority, "@");
    }
  }

  lemma SplitAuthorityInverse(p: Parts)
    requires PartsShape(p)
    ensures SplitAuthority(p.scheme, p.userinfo + p.at + (p.host + p.port), p.tail) == Some(p)
    ensures Free(p.userinfo + p.at + (p.host + p.port), "/?#")
  {
    HostPortFree(p.host, p.port);
    SplitHostPortInverse(p.host, p.port);
    SplitAuthorityAt(p.scheme, p.userinfo, p.at, p.host + p.port, p.tail);
    FreeConcat(p.userinfo, p.at, "/?#");
    FreeConcat(p.userinfo + p.at, p.host + p.port, "/?#");
  }

  lemma SeparatorAfterScheme(scheme: string, rest: string)
    requires IsScheme(scheme)
    ensures FindPart(scheme + "://" + rest, "://", 0, |scheme + "://" + rest|) == Some(|scheme|)
  {
    var s := scheme + "://" + rest;
    assert s[|scheme|..|scheme| + 3] == "://";
    assert OccursAt(s, "://", |scheme|);
    forall i | 0 <= i < |scheme|
      ensures !OccursAt(s, "://", i)
    {
      assert s[i] == scheme[i] != ':';
      if i + 3 <= |s| {
        assert s[i..i + 3][0] == s[i];
      }
    }
  }

  lemma PrintIs(p: Parts)
    ensures Print(p) == p.scheme + "://" + (p.userinfo + p.at + (p.host + p.port) + p.tail)
  {
  }

  /** Splitting a printed URL gives its parts back. */
  lemma SplitUrlInverse(lib: HostLib, p: Parts)
    requires PartsShape(p) && lib.lower(p.scheme) == p.scheme
    ensures SplitUrl(lib, Print(p)) == Some(p)
  {
    var authority := p.userinfo + p.at + (p.host + p.port);
    var rest := authority + p.tail;
    PrintIs(p);
    SplitAuthorityInverse(p);
    SplitPrinted(lib, p.scheme, authority, p.tail);
  }

  lemma SplitPrinted(lib: HostLib, scheme: string, authority: string, tail: string)
    requires IsScheme(scheme) && lib.lower(scheme) == scheme
    requires Free(authority, "/?#") && (tail == "" || tail[0] in "/?#")
    ensures SplitUrl(lib, scheme + "://" + (authority + tail)) == SplitAuthority(scheme, authority, tail)
  {
    var rest := authority + tail;
    var s := scheme + "://" + rest;
    SeparatorAfterScheme(scheme, rest);
    assert s[..|scheme|] == scheme && s[|scheme| + 3..] == rest;
    assert rest[..|authority|] == authority && rest[|authority|..] == tail;
    AuthorityEndIs(rest, |authority|);
  }

  // ── What splitting and host normalization give ────────────────────────

  lemma SplitHostPortShape(hostport: string)
    requires Free(hostport, "/?#@") && SplitHostPort(hostport).Some?
    ensures HostShape(SplitHostPort(hostport).value.0)
  {
    var host := SplitHostPort(hostport).value.0;
    assert host == hostport[..|host|];
    FreeConcat(host, hostport[|host|..], "/?#@");
    assert hostport == host + hostport[|host|..];
    if hostport != "" && hostport[0] == '[' {
      var close := FindFirst(hostport, "]", 0, |hostport|).value;
      PrefixFree(hostport, close, "]");
      assert OneOf(hostport, close, "]");
      assert host[..|host| - 1] == hostport[..close];
    } else {
      PrefixFree(hostport, |host|, ":");
    }
  }

  lemma SplitAuthorityShape(scheme: string, authority: string, tail: string)
    requires IsScheme(scheme) && Free(authority, "/?#") && (tail == "" || tail[0] in "/?#")
    requires SplitAuthority(scheme, authority, tail).Some?
    ensures PartsShape(SplitAuthority(scheme, authority, tail).value)
  {
    var at := FindLast(authority, "@", 0, |authority|);
    var from := if at.Some? then at.value + 1 else 0;
    AfterLastAtFree(authority, from);
    assert authority[0..] == authority;
    SplitHostPortShape(authority[from..]);
    if at.Some? {
      assert authority == authority[..at.value] + authority[at.value..];
      FreeConcat(authority[..at.value], authority[at.value..], "/?#");
    }
  }

  lemma AfterLastAtFree(authority: string, from: nat)
    requires from <= |authority| && Free(authority, "/?#") && forall i :: from <= i < |authority| ==> !OneOf(authority, i, "@")
    ensures Free(authority[from..], "/?#@")
  {
    forall i | 0 <= i < |authority[from..]|
      ensures authority[from..][i] !in "/?#@"
    {
      assert authority[from + i] == authority[from..][i] && !OneOf(authority, from + i, "@");
    }
  }

  lemma SplitUrlShape(lib: HostLib, raw: string)
    requires SplitUrl(lib, raw).Some?
    ensures PartsShape(SplitUrl(lib, raw).value)
  {
    var separator := FindPart(raw, "://", 0, |raw|).value;
    var rest := raw[separator + 3..];
    AuthorityEndExact(rest);
    var end := AuthorityEnd(rest);
    SplitAuthorityShape(lib.lower(raw[..separator]), rest[..end], rest[end..]);
  }

  lemma LowerFree(lib: HostLib, s: string, chars: string)
    requires LowerLaws(lib) && Free(s, chars) && forall i :: 0 <= i < |chars| ==> chars[i] in DELIMITERS
    ensures Free(lib.lower(s), chars)
  {
    forall c | c in chars
      ensures c !in lib.lower(s)
    {
      assert c in DELIMITERS;
    }
  }

  /** Normalizing a bracketed host keeps its shape, and doing it again changes nothing. */
  lemma BracketedHost(lib: HostLib, host: string)
    requires Laws(lib) && HostShape(host) && host != "" && host[0] == '[' && lib.isV6(host[1..|host| - 1])
    ensures HostShape(lib.lower(host)) && NormalizeUrlHost(lib, lib.lower(host)) == Some(lib.lower(host))
  {
    var inner := host[1..|host| - 1];
    BracketCut(host);
    var low := lib.lower(inner);
    LowerFree(lib, host, "/?#@");
    LowerFree(lib, inner, "]");
    BracketPaste(low);
  }

  lemma BracketCut(host: string)
    requires |host| >= 2 && host[0] == '[' && host[|host| - 1] == ']' && Free(host[..|host| - 1], "]")
    ensures host == "[" + host[1..|host| - 1] + "]" && Free(host[1..|host| - 1], "]")
  {
    var inner := host[1..|host| - 1];
    assert host[..|host| - 1] == "[" + inner;
    assert host == host[..|host| - 1] + [host[|host| - 1]];
    FreeConcat("[", inner, "]");
  }

  lemma BracketPaste(low: string)
    requires Free(low, "]")
    ensures var host := "[" + low + "]";
      |host| == |low| + 2 && host[0] == '[' && host[|host| - 1] == ']' && host[1..|host| - 1] == low
      && Free(host[..|host| - 1], "]")
  {
    var host := "[" + low + "]";
    assert host[..|host| - 1] == "[" + low;
    FreeConcat("[", low, "]");
  }

  lemma DigitsHost(lib: HostLib, host: string)
    requires Laws(lib) && DigitsAndDots(lib, host)
    ensures HostShape(host)
  {
    forall i | 0 <= i < |host|
      ensures host[i] !in DELIMITERS
    {
    }
  }

  ghost predicate AllLabelsOk(labels: seq<string>) {
    forall k :: 0 <= k < |labels| ==> LabelOk(labels[k])
  }

  predicate IsHostChar(c: char) {
    IsLabelChar(c) || c == '.'
  }

  /** A host is its last label, or an earlier part, a dot, and its last label. */
  lemma LabelsLast(s: string) returns (last: string)
    ensures last == Labels(s)[|Labels(s)| - 1] && |last| <= |s| && s[|s| - |last|..] == last
    ensures |last| < |s| ==> s[|s| - |last| - 1] == '.' && Labels(s) == Labels(s[..|s| - |last| - 1]) + [last]
    ensures |last| == |s| ==> Labels(s) == [s]
  {
    last := Labels(s)[|Labels(s)| - 1];
    var dot := FindLast(s, ".", 0, |s|);
    if dot.Some? {
      assert OneOf(s, dot.value, ".");
    }
  }

  lemma {:induction false} LabelsCover(s: string)
    requires AllLabelsOk(Labels(s))
    ensures forall i :: 0 <= i < |s| ==> IsHostChar(s[i])
    ensures s != "" && s[0] != '.' && s[0] != '-'
    decreases |s|
  {
    var last := LabelsLast(s);
    assert LabelOk(last);
    var at := |s| - |last|;
    forall i | at <= i < |s|
      ensures IsHostChar(s[i])
    {
      assert s[i] == last[i - at];
    }
    if at > 0 {
      var front := s[..at - 1];
      assert forall k :: 0 <= k < |Labels(front)| ==> Labels(front)[k] == Labels(s)[k];
      LabelsCover(front);
      assert forall i :: 0 <= i < |front| ==> front[i] == s[i];
    }
  }

  lemma NormalizeDomainLabels(lib: HostLib, value: string)
    requires NormalizeDomain(lib, value).Some?
    ensures var host := NormalizeDomain(lib, value).value;
      host == DropRootDot(lib.lower(value)) && AllLabelsOk(Labels(host)) && TldShapeOk(Labels(host)[|Labels(host)| - 1])
  {
    var labels := Labels(NormalizeDomain(lib, value).value);
    forall k | 0 <= k < |labels|
      ensures LabelOk(labels[k])
    {
      assert labels[k] in labels;
    }
  }

  lemma TldIsNotDigits(lib: HostLib, tld: string)
    requires DigitLaws(lib) && LabelOk(tld) && TldShapeOk(tld)
    ensures !lib.isDigit(tld[0]) && tld[0] != '.'
  {
    if "xn--" <= tld {
      assert tld[0] == "xn--"[0] == 'x';
    } else {
      assert IsAlpha(tld[0]);
    }
  }

  lemma HostCharsShape(low: string)
    requires low != "" && low[0] != '[' && forall i :: 0 <= i < |low| ==> IsHostChar(low[i])
    ensures IsAscii(low) && HostShape(low)
  {
  }

  /** A normalized domain has no delimiter, does not start with a bracket, and is not made of digits and dots. */
  lemma DomainHost(lib: HostLib, value: string)
    requires Laws(lib) && NormalizeDomain(lib, value).Some?
    ensures var low := lib.lower(value);
      && low != "" && low[0] != '[' && IsAscii(low) && HostShape(low)
      && !DigitsAndDots(lib, low)
  {
    var low := lib.lower(value);
    var host := NormalizeDomain(lib, value).value;
    NormalizeDomainLabels(lib, value);
    LabelsCover(host);
    assert low == host || low == host + ".";
    HostCharsShape(low);
    var tld := LabelsLast(host);
    var at := |host| - |tld|;
    TldIsNotDigits(lib, tld);
    assert low[at] == host[at] == host[at..][0] == tld[0];
  }

  /** Host normalization is idempotent and its result keeps a shape the splitter can cut. */
  lemma NormalizeUrlHostIdempotent(lib: HostLib, host: string)
    requires Laws(lib) && HostShape(host) && NormalizeUrlHost(lib, host).Some?
    ensures var h := NormalizeUrlHost(lib, host).value; HostShape(h) && NormalizeUrlHost(lib, h) == Some(h)
  {
    if host[0] == '[' {
      BracketedHost(lib, host);
    } else if DigitsAndDots(lib, host) {
      DigitsHost(lib, host);
    } else {
      var encoded := IdnaHost(lib, host).value;
      var low := lib.lower(encoded);
      DomainHost(lib, encoded);
      assert lib.lower(low) == low;
      assert NormalizeDomain(lib, low) == NormalizeDomain(lib, encoded);
    }
  }

  /** The printed form re-parses to the same parts: only the host was rewritten. */
  lemma NormalizeUrlReparses(lib: HostLib, raw: string)
    requires Laws(lib) && NormalizeUrl(lib, raw).Some?
    ensures var p := SplitUrl(lib, raw).value;
      && NormalizeUrlHost(lib, p.host).Some?
      && SplitUrl(lib, NormalizeUrl(lib, raw).value) == Some(p.(host := NormalizeUrlHost(lib, p.host).value))
  {
    var p := SplitUrl(lib, raw).value;
    var h := NormalizeUrlHost(lib, p.host).value;
    SplitUrlShape(lib, raw);
    NormalizeUrlHostIdempotent(lib, p.host);
    var separator := FindPart(raw, "://", 0, |raw|).value;
    assert lib.lower(lib.lower(raw[..separator])) == lib.lower(raw[..separator]);
    SplitUrlInverse(lib, p.(host := h));
  }

  /** Normalizing a normalized URL changes nothing. */
  lemma NormalizeUrlIdempotent(lib: HostLib, raw: string)
    requires Laws(lib) && NormalizeUrl(lib, raw).Some?
    ensures NormalizeUrl(lib, NormalizeUrl(lib, raw).value) == NormalizeUrl(lib, raw)
  {
    NormalizeUrlReparses(lib, raw);
    SplitUrlShape(lib, raw);
    NormalizeUrlHostIdempotent(lib, SplitUrl(lib, raw).value.host);
  }

  /** A normalized domain is its own normal form. */
  lemma NormalizeDomainIdempotent(lib: HostLib, value: string)
    requires Laws(lib) && NormalizeDomain(lib, value).Some?
    ensures NormalizeDomain(lib, NormalizeDomain(lib, value).value) == NormalizeDomain(lib, value)
  {
    var host := NormalizeDomain(lib, value).value;
    NormalizeDomainLabels(lib, value);
    var last := LabelsLast(host);
    assert LabelOk(last);
    LabelsCover(host);
    assert host[|host| - 1] == last[|last| - 1] != '.';
  }

  // ── What is accepted, character by character ──────────────────────────

  /** The dot-free stretch [i, j) between two dots or ends. */
  predicate IsLabelAt(s: string, i: nat, j: nat) {
    && i <= j <= |s| && '.' !in s[i..j]
    && (i == 0 || s[i - 1] == '.') && (j == |s| || s[j] == '.')
  }

  lemma LabelHere(s: string, i: nat, j: nat, k: nat)
    requires IsLabelAt(s, i, j) && k < |s| && s[k] == '.'
    ensures k < i || j <= k
  {
    assert forall x :: i <= x < j ==> s[i..j][x - i] == s[x];
  }

  lemma LastLabelAt(s: string, i: nat)
    requires i <= |s| && (i == 0 || s[i - 1] == '.') && forall k :: i <= k < |s| ==> !OneOf(s, k, ".")
    ensures IsLabelAt(s, i, |s|)
    ensures forall a: nat, b: nat :: b <= |s| && IsLabelAt(s, a, b) ==> (a == i && b == |s|) || b < i
  {
    assert forall k :: i <= k < |s| ==> (OneOf(s, k, ".") <==> s[k] == '.');
    forall a: nat, b: nat | b <= |s| && IsLabelAt(s, a, b)
      ensures (a == i && b == |s|) || b < i
    {
      if i > 0 {
        LabelHere(s, a, b, i - 1);
      }
    }
  }

  lemma FrontLabel(s: string, d: nat, i: nat, j: nat)
    requires d < |s| && s[d] == '.' && j <= d
    ensures IsLabelAt(s[..d], i, j) <==> IsLabelAt(s, i, j)
  {
    assert i <= j ==> s[..d][i..j] == s[i..j];
  }

  ghost predicate HasLabel(s: string, l: string) {
    exists i: nat, j: nat :: LabelIs(s, i, j, l)
  }

  ghost predicate LabelIs(s: string, i: nat, j: nat, l: string) {
    IsLabelAt(s, i, j) && l == s[i..j]
  }

  /** Splitting at dots gives the stretches between them. */
  lemma {:induction false} LabelsAre(s: string, l: string)
    ensures l in Labels(s) <==> HasLabel(s, l)
    decreases |s|
  {
    var dot := FindLast(s, ".", 0, |s|);
    if dot.None? {
      assert forall k :: 0 <= k < |s| ==> !OneOf(s, k, ".");
      LastLabelAt(s, 0);
      assert s[0..|s|] == s && LabelIs(s, 0, |s|, s);
    } else {
      var d := dot.value;
      assert OneOf(s, d, ".") && forall k :: d < k < |s| ==> !OneOf(s, k, ".");
      LabelsAre(s[..d], l);
      LastLabelAt(s, d + 1);
      SplitAtLast(s, d, l);
    }
  }

  lemma SplitAtLast(s: string, d: nat, l: string)
    requires d < |s| && s[d] == '.' && forall a: nat, b: nat :: b <= |s| && IsLabelAt(s, a, b) ==> (a == d + 1 && b == |s|) || b < d + 1
    requires IsLabelAt(s, d + 1, |s|)
    ensures HasLabel(s, l) <==> HasLabel(s[..d], l) || l == s[d + 1..]
  {
    if i: nat, j: nat :| LabelIs(s, i, j, l) {
      if j <= d {
        FrontLabel(s, d, i, j);
        assert s[..d][i..j] == s[i..j];
        assert LabelIs(s[..d], i, j, l);
      } else {
        assert s[i..j] == s[d + 1..];
      }
    }
    if i: nat, j: nat :| LabelIs(s[..d], i, j, l) {
      FrontLabel(s, d, i, j);
      assert s[..d][i..j] == s[i..j];
      assert LabelIs(s, i, j, l);
    }
    if l == s[d + 1..] {
      assert LabelIs(s, d + 1, |s|, l);
    }
  }

  lemma LastOfLabels(s: string, i: nat)
    ensures |Labels(s)| >= 2 <==> '.' in s
    ensures IsLabelAt(s, i, |s|) ==> Labels(s)[|Labels(s)| - 1] == s[i..]
    ensures exists k: nat :: IsLabelAt(s, k, |s|)
  {
    var dot := FindLast(s, ".", 0, |s|);
    var from := if dot.Some? then dot.value + 1 else 0;
    assert forall k :: from <= k < |s| ==> !OneOf(s, k, ".");
    assert dot.Some? ==> s[dot.value] == '.';
    assert s[0..] == s;
    LastLabelAt(s, from);
  }

  /** Lower-case letters, digits and hyphens between dots: at most 253 in all and 1 to 63 to a label, no hyphen at an end of one. */
  ghost predicate IsHostname(h: string) {
    && |h| <= 253 && '.' in h && IsAscii(h)
    && (forall i: nat, j: nat :: IsLabelAt(h, i, j) ==> PlainLabel(h[i..j]))
    && exists i: nat :: IsLabelAt(h, i, |h|) && IsTopLevel(h[i..])
  }

  /** Two letters or more, or an encoded name. */
  predicate IsTopLevel(l: string) {
    || (|l| >= 2 && forall i :: 0 <= i < |l| ==> l[i] in "abcdefghijklmnopqrstuvwxyz")
    || (|l| >= 4 && l[0] == 'x' && l[1] == 'n' && l[2] == '-' && l[3] == '-')
  }

  predicate PlainLabel(l: string) {
    && 0 < |l| < 64 && l[0] != '-' && l[|l| - 1] != '-'
    && forall i :: 0 <= i < |l| ==> l[i] in "abcdefghijklmnopqrstuvwxyz0123456789-"
  }

  lemma PlainLabelIff(l: string)
    ensures LabelOk(l) <==> PlainLabel(l)
    ensures PlainLabel(l) ==> (TldShapeOk(l) <==> IsTopLevel(l))
  {
    forall c: char
      ensures IsLabelChar(c) <==> c in "abcdefghijklmnopqrstuvwxyz0123456789-"
      ensures c in "abcdefghijklmnopqrstuvwxyz0123456789-" ==> (IsAlpha(c) <==> c in "abcdefghijklmnopqrstuvwxyz")
    {
      CharRanges(c);
    }
    assert "xn--" <= l <==> (|l| >= 4 && l[..4] == "xn--");
    assert |l| >= 4 ==> l[..4] == [l[0], l[1], l[2], l[3]];
  }

  lemma CharRanges(c: char)
    ensures 'a' <= c <= 'z' <==> c in "abcdefghijklmnopqrstuvwxyz"
    ensures '0' <= c <= '9' <==> c in "0123456789"
    ensures c in "abcdefghijklmnopqrstuvwxyz0123456789-" <==>
      (c in "abcdefghijklmnopqrstuvwxyz" || c in "0123456789" || c == '-')
  {
    Letters(c);
    Numerals(c);
    assert "abcdefghijklmnopqrstuvwxyz0123456789-" == "abcdefghijklmnopqrstuvwxyz" + "0123456789" + "-";
  }

  lemma Letters(c: char)
    ensures 'a' <= c <= 'z' <==> c in "abcdefghijklmnopqrstuvwxyz"
  {
    assert 'a' <= c <= 'z' ==> "abcdefghijklmnopqrstuvwxyz"[c as int - 'a' as int] == c;
  }

  lemma Numerals(c: char)
    ensures '0' <= c <= '9' <==> c in "0123456789"
  {
    assert '0' <= c <= '9' ==> "0123456789"[c as int - '0' as int] == c;
  }

  /** A domain is accepted exactly when its lower-case form without one final dot is a host name that the codec takes. */
  lemma NormalizeDomainIff(lib: HostLib, value: string, h: string)
    ensures NormalizeDomain(lib, value) == Some(h) <==>
      IsHostname(h) && lib.idnaAccepts(h) && (lib.lower(value) == h || lib.lower(value) == h + ".")
  {
    var low := lib.lower(value);
    HostnameIff(lib, DropRootDot(low));
    if IsHostname(h) {
      HostnameEnd(h);
      RootDot(low, h);
    } else {
      assert DropRootDot(low) == h ==> !IsHostname(DropRootDot(low));
    }
  }

  lemma RootDot(low: string, h: string)
    requires h != "" && h[|h| - 1] != '.'
    ensures DropRootDot(low) == h <==> low == h || low == h + "."
  {
    assert (h + ".")[..|h|] == h;
    assert low != "" && low[|low| - 1] == '.' ==> low == low[..|low| - 1] + ".";
  }

  lemma HostnameEnd(h: string)
    requires IsHostname(h)
    ensures h != "" && h[|h| - 1] != '.'
  {
    var i: nat :| IsLabelAt(h, i, |h|) && IsTopLevel(h[i..]);
    assert PlainLabel(h[i..|h|]);
    assert h[|h| - 1] == h[i..|h|][|h| - i - 1];
  }

  lemma HostnameIff(lib: HostLib, host: string)
    ensures IsHostname(host) <==>
      && host != "" && |host| <= 253 && IsAscii(host) && |Labels(host)| >= 2
      && TldShapeOk(Labels(host)[|Labels(host)| - 1]) && forall l :: l in Labels(host) ==> LabelOk(l)
  {
    LastOfLabels(host, 0);
    forall l
      ensures l in Labels(host) <==> HasLabel(host, l)
    {
      LabelsAre(host, l);
    }
    if forall l :: l in Labels(host) ==> LabelOk(l) {
      forall i: nat, j: nat | IsLabelAt(host, i, j)
        ensures PlainLabel(host[i..j])
      {
        assert LabelIs(host, i, j, host[i..j]);
        PlainLabelIff(host[i..j]);
      }
    }
    if forall i: nat, j: nat :: IsLabelAt(host, i, j) ==> PlainLabel(host[i..j]) {
      forall l | l in Labels(host)
        ensures LabelOk(l)
      {
        var i: nat, j: nat :| LabelIs(host, i, j, l);
        PlainLabelIff(l);
      }
      LastIsTop(host);
    }
  }

  lemma LastIsTop(host: string)
    requires forall i: nat, j: nat :: IsLabelAt(host, i, j) ==> PlainLabel(host[i..j])
    ensures (exists i: nat :: IsLabelAt(host, i, |host|) && IsTopLevel(host[i..])) <==> TldShapeOk(Labels(host)[|Labels(host)| - 1])
  {
    LastOfLabels(host, 0);
    forall i: nat | IsLabelAt(host, i, |host|)
      ensures Labels(host)[|Labels(host)| - 1] == host[i..] && (TldShapeOk(host[i..]) <==> IsTopLevel(host[i..]))
    {
      LastOfLabels(host, i);
      assert host[i..] == host[i..|host|];
      PlainLabelIff(host[i..]);
    }
  }

  lemma {:induction false} ShortDecimal(n: nat)
    ensures n < 10 ==> |Decimal(n)| == 1
    ensures n < 100 ==> |Decimal(n)| <= 2
    ensures n < 1000 ==> |Decimal(n)| <= 3
    ensures n < 10_000 ==> |Decimal(n)| <= 4
    ensures n < 100_000 ==> |Decimal(n)| <= 5
  {
    if n >= 10 {
      ShortDecimal(n / 10);
    }
  }

  /** A host is encoded when it has a character outside ASCII, unless it or one of its labels is too long for a name. */
  lemma IdnaHostIff(lib: HostLib, host: string, name: string)
    ensures (forall i :: 0 <= i < |host| ==> host[i] <= '\U{007F}') ==> (IdnaHost(lib, host) == Some(name) <==> name == host)
    ensures (exists i :: 0 <= i < |host| && host[i] > '\U{007F}') ==>
      (IdnaHost(lib, host) == Some(name) <==> FitsName(host) && lib.idnaEncode(host) == Some(name))
  {
    if exists l :: l in Labels(host) && |l| > 63 {
      var l :| l in Labels(host) && |l| > 63;
      LabelsAre(host, l);
      var i: nat, j: nat :| LabelIs(host, i, j, l);
    } else {
      forall i: nat, j: nat | IsLabelAt(host, i, j)
        ensures j - i <= 63
      {
        LabelsAre(host, host[i..j]);
        assert LabelIs(host, i, j, host[i..j]);
      }
    }
  }

  ghost predicate FitsName(host: string) {
    |host| <= 253 && forall i: nat, j: nat :: IsLabelAt(host, i, j) ==> j - i <= 63
  }

  /** A host in brackets must be an IPv6 address, one of digits and dots an IPv4 address, and any other a domain. */
  lemma NormalizeUrlHostIff(lib: HostLib, host: string, h: string)
    requires DigitLaws(lib)
    ensures NormalizeUrlHost(lib, host) == Some(h) <==>
      || (exists a :: host == "[" + a + "]" && lib.isV6(a) && h == lib.lower(host))
      || (host != "" && (forall c :: c in host ==> c == '.' || lib.isDigit(c)) && lib.isV4(host) && h == host)
      || (host != "" && host[0] != '[' && (exists c :: c in host && c != '.' && !lib.isDigit(c)) && IsDomainForm(lib, host, h))
  {
    assert forall c :: c in host <==> exists i :: 0 <= i < |host| && host[i] == c;
    assert DigitsAndDots(lib, host) <==> forall c :: c in host ==> c == '.' || lib.isDigit(c);
    assert host != "" && host[0] == '[' ==> host[0] in host && !lib.isDigit('[') by {
      assert '[' in DELIMITERS;
    }
    if host != "" && host[0] == '[' && host[|host| - 1] == ']' && lib.isV6(host[1..|host| - 1]) {
      assert host == "[" + host[1..|host| - 1] + "]";
    }
    if a :| host == "[" + a + "]" {
      assert host[1..|host| - 1] == a;
    }
  }

  /** The IDNA form is a domain, and h is that form in lower case. */
  ghost predicate IsDomainForm(lib: HostLib, host: string, h: string) {
    exists name :: IdnaHost(lib, host) == Some(name) && NormalizeDomain(lib, name).Some? && h == lib.lower(name)
  }

  /** Written in decimal, exactly the numbers up to 65535 are ports. */
  lemma PortIff(n: nat)
    ensures PortOk(":" + Decimal(n)) <==> n <= 65535
  {
    DecimalValue(n);
    ShortDecimal(n);
    var port := ":" + Decimal(n);
    assert port[1..] == Decimal(n);
  }

  /** raw spelled out: scheme, the first "://", and the written parts; only the scheme's case may differ. */
  ghost predicate WrittenAs(lib: HostLib, raw: string, separator: nat, p: Parts) {
    && separator + 3 <= |raw| && raw[separator..separator + 3] == "://"
    && (forall i :: 0 <= i < separator ==> !OccursAt(raw, "://", i))
    && lib.lower(raw[..separator]) == p.scheme && p.scheme in {"http", "https", "ftp", "sftp"}
    && raw[separator + 3..] == p.userinfo + p.at + (p.host + p.port) + p.tail
    && PartsShape(p)
  }

  lemma SplitWritten(lib: HostLib, raw: string, separator: nat, p: Parts)
    requires WrittenAs(lib, raw, separator, p)
    ensures SplitUrl(lib, raw) == Some(p)
  {
    var authority := p.userinfo + p.at + (p.host + p.port);
    SplitAuthorityInverse(p);
    var rest := raw[separator + 3..];
    assert OccursAt(raw, "://", separator);
    assert FindPart(raw, "://", 0, |raw|) == Some(separator);
    assert rest[..|authority|] == authority && rest[|authority|..] == p.tail;
    AuthorityEndIs(rest, |authority|);
  }

  lemma HostPortJoin(hostport: string)
    requires SplitHostPort(hostport).Some?
    ensures hostport == SplitHostPort(hostport).value.0 + SplitHostPort(hostport).value.1
  {
  }

  lemma PartsJoin(scheme: string, authority: string, tail: string)
    requires SplitAuthority(scheme, authority, tail).Some?
    ensures var p := SplitAuthority(scheme, authority, tail).value;
      p.scheme == scheme && p.tail == tail && authority == p.userinfo + p.at + (p.host + p.port)
  {
    var at := FindLast(authority, "@", 0, |authority|);
    if at.Some? {
      assert OneOf(authority, at.value, "@");
      CutAround(authority, at.value);
      PartsAre(scheme, authority[..at.value], "@", authority[at.value + 1..], tail);
    } else {
      assert "" + "" + authority == authority;
      PartsAre(scheme, "", "", authority, tail);
    }
  }

  lemma PartsAre(scheme: string, userinfo: string, at: string, hostport: string, tail: string)
    requires SplitHostPort(hostport).Some?
    ensures var hp := SplitHostPort(hostport).value; userinfo + at + hostport == userinfo + at + (hp.0 + hp.1)
  {
    HostPortJoin(hostport);
  }

  lemma CutAround(authority: string, at: nat)
    requires at < |authority| && authority[at] == '@'
    ensures authority == authority[..at] + "@" + authority[at + 1..]
  {
  }

  lemma WrittenSplit(lib: HostLib, raw: string) returns (separator: nat)
    requires SplitUrl(lib, raw).Some?
    ensures WrittenAs(lib, raw, separator, SplitUrl(lib, raw).value)
  {
    separator := FindPart(raw, "://", 0, |raw|).value;
    AuthorityEndExact(raw[separator + 3..]);
    SplitAtSeparator(lib, raw, separator);
    SplitUrlShape(lib, raw);
    IsWritten(lib, raw, separator, SplitUrl(lib, raw).value);
  }

  lemma SplitAtSeparator(lib: HostLib, raw: string, separator: nat)
    requires SplitUrl(lib, raw).Some? && FindPart(raw, "://", 0, |raw|) == Some(separator)
    ensures var p := SplitUrl(lib, raw).value;
      lib.lower(raw[..separator]) == p.scheme && raw[separator + 3..] == p.userinfo + p.at + (p.host + p.port) + p.tail
  {
    var rest := raw[separator + 3..];
    var end := AuthorityEnd(rest);
    PartsJoin(lib.lower(raw[..separator]), rest[..end], rest[end..]);
    CutAt(rest, end);
  }

  lemma CutAt(rest: string, end: nat)
    requires end <= |rest|
    ensures rest == rest[..end] + rest[end..]
  {
  }

  lemma IsWritten(lib: HostLib, raw: string, separator: nat, p: Parts)
    requires FindPart(raw, "://", 0, |raw|) == Some(separator) && lib.lower(raw[..separator]) == p.scheme
    requires PartsShape(p) && raw[separator + 3..] == p.userinfo + p.at + (p.host + p.port) + p.tail
    ensures WrittenAs(lib, raw, separator, p)
  {
    assert OccursAt(raw, "://", separator);
    forall i | 0 <= i < separator
      ensures !OccursAt(raw, "://", i)
    {
    }
  }

  /** raw is written with these parts, its host has a normal form, and n is the rest as written around that form. */
  ghost predicate UrlOf(lib: HostLib, raw: string, separator: nat, p: Parts, h: string, n: string) {
    && WrittenAs(lib, raw, separator, p) && NormalizeUrlHost(lib, p.host) == Some(h)
    && n == p.scheme + "://" + p.userinfo + p.at + h + p.port + p.tail
  }

  /** A URL is accepted exactly when it is written with an allowed scheme, a host that normalizes and a port; the rest stays as written. */
  lemma NormalizeUrlIff(lib: HostLib, raw: string, n: string)
    ensures NormalizeUrl(lib, raw) == Some(n) <==> exists separator, p, h :: UrlOf(lib, raw, separator, p, h, n)
  {
    if NormalizeUrl(lib, raw) == Some(n) {
      var separator := WrittenSplit(lib, raw);
      var p := SplitUrl(lib, raw).value;
      assert UrlOf(lib, raw, separator, p, NormalizeUrlHost(lib, p.host).value, n);
    }
    if separator: nat, p, h :| UrlOf(lib, raw, separator, p, h, n) {
      SplitWritten(lib, raw, separator, p);
    }
  }

  // ── The laws hold of a library that accepts URLs ──────────────────────

  /** Characters as they are, ASCII digits, no addresses, and every name accepted. */
  function PlainLib(): HostLib {
    HostLib(s => s, c => '0' <= c <= '9', s => false, s => false, s => None, s => true)
  }

  lemma PlainLabels()
    ensures Labels("a.bc") == ["a", "bc"]
  {
    var s := "a.bc";
    FindLastIs(s, ".", 1);
    assert s[..1] == "a" && s[2..] == "bc";
    FindLastNone("a", ".");
  }

  lemma PlainHost()
    ensures NormalizeUrlHost(PlainLib(), "a.bc") == Some("a.bc")
  {
    PlainLabels();
    assert !DigitsAndDots(PlainLib(), "a.bc") by {
      assert "a.bc"[0] == 'a';
    }
    assert Labels("a.bc")[0] == "a" && Labels("a.bc")[1] == "bc";
    assert NormalizeDomain(PlainLib(), "a.bc") == Some("a.bc");
  }

  lemma PlainLaws()
    ensures Laws(PlainLib())
  {
  }

  lemma PlainParts()
    ensures PartsShape(Parts("http", "", "", "a.bc", "", ""))
  {
  }

  lemma AcceptsParts(lib: HostLib, p: Parts)
    requires Laws(lib) && PartsShape(p) && lib.lower(p.scheme) == p.scheme && NormalizeUrlHost(lib, p.host).Some?
    ensures exists l, url :: Laws(l) && NormalizeUrl(l, url).Some?
  {
    SplitUrlInverse(lib, p);
    assert NormalizeUrl(lib, Print(p)).Some?;
  }

  /** The laws hold together with an accepted URL, so what is proved from them is not vacuous. */
  lemma LawsCanHold()
    ensures exists lib, url :: Laws(lib) && NormalizeUrl(lib, url).Some?
  {
    PlainLaws();
    PlainHost();
    PlainParts();
    AcceptsParts(PlainLib(), Parts("http", "", "", "a.bc", "", ""));
  }
}
