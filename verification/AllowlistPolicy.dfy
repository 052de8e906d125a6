/** Allowlist entries: how they are canonicalized, and which observables one entry allows. */
module AllowlistPolicy {
  import opened Wrappers
  import opened Observables
  import opened AddressBlocks
  import opened HostSpans
  import opened Texts
  import UrlNormal

  const MAX_VALUE_BYTES := 2048
  const MAX_HOSTNAME_LENGTH := 253
  const MAX_LABEL_LENGTH := 63
  const NON_DOMAIN_CHARS := "/:@*?#\\"

  datatype Kind = Exact | DomainSuffix | Cidr

  datatype Entry = Entry(id: nat, kind: Kind, typ: ObsType, value: string)

  /** `str` methods and the `ipaddress` module. */
  datatype TextLib = TextLib(
    lower: string -> string,
    isSpace: char -> bool,
    isPrintable: char -> bool,
    parseAddress: string -> Option<Address>,
    parseNetwork: string -> Option<Network>,
    showAddress: Address -> string,
    showNetwork: Network -> string)

  predicate LowerFixed(lib: TextLib, c: char) {
    lib.lower([c]) == [c]
  }

  /** Every character of a lower-cased string is its own lower case, and a string of such characters is unchanged. */
  ghost predicate LowerLaws(lib: TextLib) {
    && (forall s, c :: c in lib.lower(s) ==> LowerFixed(lib, c))
    && (forall s :: (forall c :: c in s ==> LowerFixed(lib, c)) ==> lib.lower(s) == s)
  }

  /** A parsed value is in range, and printing a value parsed from trimmed text gives trimmed text that parses to it. */
  ghost predicate AddressLaws(lib: TextLib) {
    && (forall t :: lib.parseAddress(t).Some? ==> ValidAddress(lib.parseAddress(t).value))
    && (forall t :: lib.parseAddress(t).Some? && Strip(lib, t) == t ==>
      var shown := lib.showAddress(lib.parseAddress(t).value);
      shown != "" && Strip(lib, shown) == shown && lib.parseAddress(shown) == lib.parseAddress(t))
  }

  predicate PrintsBack(lib: TextLib, a: Address) {
    lib.parseAddress(lib.showAddress(a)) == Some(a) && Strip(lib, lib.showAddress(a)) == lib.showAddress(a)
  }

  /** Every address without a scope has a text. */
  ghost predicate UnscopedLaws(lib: TextLib) {
    forall a :: ValidAddress(a) && a.scope.None? ==> PrintsBack(lib, a)
  }

  /** The same for networks; one address is its own block; and only text with a slash names a longer block. */
  ghost predicate NetworkLaws(lib: TextLib) {
    && (forall t :: lib.parseNetwork(t).Some? ==> ValidNetwork(lib.parseNetwork(t).value))
    && (forall t :: lib.parseNetwork(t).Some? && Strip(lib, t) == t ==>
      var shown := lib.showNetwork(lib.parseNetwork(t).value);
      shown != "" && Strip(lib, shown) == shown && lib.parseNetwork(shown) == lib.parseNetwork(t))
    && (forall t :: lib.parseNetwork(t).Some? && lib.parseAddress(t).Some? ==>
      IsHostBlock(lib.parseNetwork(t).value, lib.parseAddress(t).value))
    && (forall t :: lib.parseNetwork(t).Some? && '/' !in t ==> lib.parseAddress(t).Some?)
  }

  predicate IsHostBlock(n: Network, a: Address) {
    n.version == a.version && n.prefixLength == MaxPrefix(n.version) && n.base == a.value
  }

  ghost predicate Laws(lib: TextLib) {
    LowerLaws(lib) && AddressLaws(lib) && UnscopedLaws(lib) && NetworkLaws(lib)
  }

  // ── Canonical forms ───────────────────────────────────────────────────

  function StripLeft(lib: TextLib, s: string): string {
    if s != "" && lib.isSpace(s[0]) then StripLeft(lib, s[1..]) else s
  }

  function StripRight(lib: TextLib, s: string): string {
    if s != "" && lib.isSpace(s[|s| - 1]) then StripRight(lib, s[..|s| - 1]) else s
  }

  /** `text.strip()`. */
  function Strip(lib: TextLib, s: string): string {
    StripRight(lib, StripLeft(lib, s))
  }

  predicate Trimmed(lib: TextLib, s: string) {
    s != "" ==> !lib.isSpace(s[0]) && !lib.isSpace(s[|s| - 1])
  }

  lemma {:induction false} StripRightTrims(lib: TextLib, s: string)
    requires s != "" ==> !lib.isSpace(s[0])
    ensures Trimmed(lib, StripRight(lib, s))
  {
    if s != "" && lib.isSpace(s[|s| - 1]) {
      StripRightTrims(lib, s[..|s| - 1]);
    }
  }

  lemma {:induction false} StripLeftTrims(lib: TextLib, s: string)
    ensures StripLeft(lib, s) != "" ==> !lib.isSpace(StripLeft(lib, s)[0])
  {
    if s != "" && lib.isSpace(s[0]) {
      StripLeftTrims(lib, s[1..]);
    }
  }

  /** Stripping is idempotent: its results are exactly the trimmed strings. */
  lemma StripIdempotent(lib: TextLib, s: string)
    ensures Strip(lib, Strip(lib, s)) == Strip(lib, s)
    ensures Strip(lib, s) == s <==> Trimmed(lib, s)
  {
    StripLeftTrims(lib, s);
    StripRightTrims(lib, StripLeft(lib, s));
  }

  function NormalizeHostname(lib: TextLib, value: string): string {
    var host := lib.lower(Strip(lib, value));
    if host != "" && host[|host| - 1] == '.' then host[..|host| - 1] else host
  }

  /** Lower-casing turns no other character into white space at either end, and a dot is no white space. */
  ghost predicate TrimLaws(lib: TextLib) {
    !lib.isSpace('.') && forall s :: Trimmed(lib, s) ==> Trimmed(lib, lib.lower(s))
  }

  predicate EndsInDot(s: string) {
    s != "" && s[|s| - 1] == '.'
  }

  /** Under the root dot there is another dot, or white space that the trimming did not reach. */
  predicate LosesMore(lib: TextLib, text: string) {
    EndsInDot(text) && |text| >= 2 && (text[|text| - 2] == '.' || lib.isSpace(text[|text| - 2]))
  }

  lemma {:induction false} StripLeftShortens(lib: TextLib, s: string)
    ensures |StripLeft(lib, s)| <= |s| && forall c :: c in StripLeft(lib, s) ==> c in s
  {
    if s != "" && lib.isSpace(s[0]) {
      StripLeftShortens(lib, s[1..]);
    }
  }

  lemma {:induction false} StripRightShortens(lib: TextLib, s: string)
    ensures |StripRight(lib, s)| <= |s| && forall c :: c in StripRight(lib, s) ==> c in s
  {
    if s != "" && lib.isSpace(s[|s| - 1]) {
      StripRightShortens(lib, s[..|s| - 1]);
    }
  }

  /** Normalizing again a text of lower-case characters: it is trimmed once more and loses one more dot. */
  lemma NormalizeAgain(lib: TextLib, r: string)
    requires LowerLaws(lib) && forall c :: c in r ==> LowerFixed(lib, c)
    ensures NormalizeHostname(lib, r) == r <==> Trimmed(lib, r) && !EndsInDot(r)
  {
    StripIdempotent(lib, r);
    StripLeftShortens(lib, r);
    StripRightShortens(lib, StripLeft(lib, r));
    assert lib.lower(Strip(lib, r)) == Strip(lib, r);
  }

  /** Normalization is idempotent on a value exactly when its trimmed lower-case form has neither a second dot nor white space
      under the trailing dot. */
  lemma NormalizeHostnameIdempotentIff(lib: TextLib, value: string)
    requires LowerLaws(lib) && TrimLaws(lib)
    ensures NormalizeHostname(lib, NormalizeHostname(lib, value)) == NormalizeHostname(lib, value)
      <==> !LosesMore(lib, lib.lower(Strip(lib, value)))
  {
    var text, r := lib.lower(Strip(lib, value)), NormalizeHostname(lib, value);
    StripIdempotent(lib, value);
    StripIdempotent(lib, Strip(lib, value));
    assert Trimmed(lib, text) && forall c :: c in r ==> c in text;
    NormalizeAgain(lib, r);
    assert EndsInDot(text) && |text| >= 2 ==> r[0] == text[0] && r[|r| - 1] == text[|text| - 2];
  }

  /** Of two trailing dots each normalization takes one, and white space before the dot goes the second time. */
  lemma NormalizeHostnameNotIdempotent(lib: TextLib)
    requires LowerLaws(lib) && LowerFixed(lib, 'a') && LowerFixed(lib, '.') && LowerFixed(lib, ' ')
    requires lib.isSpace(' ') && !lib.isSpace('a') && !lib.isSpace('.')
    ensures NormalizeHostname(lib, "a..") == "a." && NormalizeHostname(lib, "a.") == "a"
    ensures NormalizeHostname(lib, "a .") == "a " && NormalizeHostname(lib, "a ") == "a"
  {
    StripIdempotent(lib, "a..");
    StripIdempotent(lib, "a.");
    StripIdempotent(lib, "a .");
    assert lib.lower("a..") == "a.." && lib.lower("a.") == "a." && lib.lower("a .") == "a .";
    TrailingSpace(lib);
  }

  lemma TrailingSpace(lib: TextLib)
    requires LowerLaws(lib) && LowerFixed(lib, 'a') && lib.isSpace(' ') && !lib.isSpace('a')
    ensures NormalizeHostname(lib, "a ") == "a"
  {
    var s := "a ";
    assert StripLeft(lib, s) == s && s[..1] == "a" && StripRight(lib, "a") == "a";
    assert lib.lower("a") == "a";
  }

  datatype Rejection =
    | ValueRequired | TypeMismatch | NotCidr | NameRequired | NotBareDomain | NameTooLong | EmptyLabel | LabelTooLong
    | AddressNotDomain | TypeRequired | NotSingleAddress | NotAddress | ValueTooLong

  datatype Canonical = Accepted(value: string, typ: ObsType) | Rejected(reason: Rejection)

  function CheckLabels(labels: seq<string>): Option<Rejection> {
    if labels == [] then None
    else if labels[0] == "" then Some(EmptyLabel)
    else if |labels[0]| > MAX_LABEL_LENGTH then Some(LabelTooLong)
    else CheckLabels(labels[1..])
  }

  predicate BadHostChar(lib: TextLib, c: char) {
    lib.isSpace(c) || !lib.isPrintable(c) || c in NON_DOMAIN_CHARS
  }

  function ValidateBareDomain(lib: TextLib, value: string): Canonical {
    var host := NormalizeHostname(lib, value);
    if host == "" then Rejected(NameRequired)
    else if exists i :: 0 <= i < |host| && BadHostChar(lib, host[i]) then Rejected(NotBareDomain)
    else if |host| > MAX_HOSTNAME_LENGTH then Rejected(NameTooLong)
    else
      var bad := CheckLabels(UrlNormal.Labels(host));
      if bad.Some? then Rejected(bad.value)
      else if lib.parseAddress(host).Some? then Rejected(AddressNotDomain)
      else Accepted(host, DomainName)
  }

  function Canonicalize(lib: TextLib, kind: Kind, value: string, typ: Option<ObsType>): Canonical {
    var text := Strip(lib, value);
    if text == "" then Rejected(ValueRequired)
    else match kind
      case Cidr =>
        if typ.Some? && typ.value != IpAddr then Rejected(TypeMismatch)
        else
          var n := lib.parseNetwork(text);
          if n.Some? then Accepted(lib.showNetwork(n.value), IpAddr) else Rejected(NotCidr)
      case DomainSuffix =>
        if typ.Some? && typ.value != DomainName then Rejected(TypeMismatch)
        else ValidateBareDomain(lib, text)
      case Exact =>
        if typ.None? then Rejected(TypeRequired)
        else if typ.value == IpAddr then
          var a := lib.parseAddress(text);
          if a.Some? then Accepted(lib.showAddress(a.value), IpAddr)
          else if '/' in text then Rejected(NotSingleAddress)
          else Rejected(NotAddress)
        else if typ.value == DomainName then ValidateBareDomain(lib, text)
        else Accepted(value, typ.value)
  }

  function CanonicalizeEntry(lib: TextLib, kind: Kind, value: string, typ: Option<ObsType>): Canonical {
    var c := Canonicalize(lib, kind, value, typ);
    if c.Accepted? && Utf8Length(c.value) > MAX_VALUE_BYTES then Rejected(ValueTooLong) else c
  }

  lemma {:induction false} CheckLabelsIff(labels: seq<string>)
    ensures CheckLabels(labels).None? <==> forall i :: 0 <= i < |labels| ==> 1 <= |labels[i]| <= MAX_LABEL_LENGTH
  {
    if labels != [] {
      CheckLabelsIff(labels[1..]);
      assert forall i :: 0 < i < |labels| ==> labels[i] == labels[1..][i - 1];
    }
  }

  /** Printable characters without any that a URL, a port, an address or a pattern needs; labels of 1 to 63, 253 in all; no address. */
  ghost predicate IsBareDomain(lib: TextLib, host: string) {
    && 1 <= |host| <= 253 && lib.parseAddress(host).None?
    && (forall i :: 0 <= i < |host| ==> lib.isPrintable(host[i]) && !lib.isSpace(host[i]))
    && (forall i :: 0 <= i < |host| ==> host[i] !in {'/', ':', '@', '*', '?', '#', '\\'})
    && forall i: nat, j: nat :: UrlNormal.IsLabelAt(host, i, j) ==> 1 <= j - i <= 63
  }

  /** A value is accepted as a domain exactly when its normal form is a bare domain, and then as that form. */
  lemma BareDomainIff(lib: TextLib, value: string)
    ensures ValidateBareDomain(lib, value).Accepted? <==> IsBareDomain(lib, NormalizeHostname(lib, value))
    ensures ValidateBareDomain(lib, value).Accepted? ==> ValidateBareDomain(lib, value).value == NormalizeHostname(lib, value)
  {
    var host := NormalizeHostname(lib, value);
    BareLabels(host);
    assert forall c :: c in NON_DOMAIN_CHARS <==> c in {'/', ':', '@', '*', '?', '#', '\\'};
    assert forall i :: 0 <= i < |host| ==> (BadHostChar(lib, host[i]) <==>
      lib.isSpace(host[i]) || !lib.isPrintable(host[i]) || host[i] in {'/', ':', '@', '*', '?', '#', '\\'});
  }

  lemma BareLabels(host: string)
    ensures CheckLabels(UrlNormal.Labels(host)).None? <==>
      forall i: nat, j: nat :: UrlNormal.IsLabelAt(host, i, j) ==> 1 <= j - i <= 63
  {
    var labels := UrlNormal.Labels(host);
    CheckLabelsIff(labels);
    if CheckLabels(labels).None? {
      forall i: nat, j: nat | UrlNormal.IsLabelAt(host, i, j)
        ensures 1 <= j - i <= 63
      {
        assert UrlNormal.LabelIs(host, i, j, host[i..j]);
        UrlNormal.LabelsAre(host, host[i..j]);
      }
    }
    if forall i: nat, j: nat :: UrlNormal.IsLabelAt(host, i, j) ==> 1 <= j - i <= 63 {
      forall k | 0 <= k < |labels|
        ensures 1 <= |labels[k]| <= MAX_LABEL_LENGTH
      {
        assert labels[k] in labels;
        UrlNormal.LabelsAre(host, labels[k]);
        var i: nat, j: nat :| UrlNormal.LabelIs(host, i, j, labels[k]);
      }
    }
  }

  /** A dot at the end leaves an empty last label. */
  lemma LastLabel(host: string)
    requires host != "" && CheckLabels(UrlNormal.Labels(host)).None?
    ensures host[|host| - 1] != '.'
  {
    var labels := UrlNormal.Labels(host);
    CheckLabelsIff(labels);
    var last: nat := |host| - 1;
    assert host[last] == '.' <==> OneOf(host, last, ".");
    assert |labels[|labels| - 1]| >= 1;
  }

  /** What a bare domain is accepted as is lower-case, trimmed, without a trailing dot, and so normalizes to itself. */
  lemma AcceptedDomainIsNormal(lib: TextLib, value: string)
    requires LowerLaws(lib) && ValidateBareDomain(lib, value).Accepted?
    ensures var host := ValidateBareDomain(lib, value).value;
      host == NormalizeHostname(lib, value) == NormalizeHostname(lib, host) && host != "" && Strip(lib, host) == host
  {
    var host := NormalizeHostname(lib, value);
    var lowered := lib.lower(Strip(lib, value));
    assert forall c :: c in host ==> c in lowered;
    assert lib.lower(host) == host;
    assert !BadHostChar(lib, host[0]) && !BadHostChar(lib, host[|host| - 1]);
    StripIdempotent(lib, host);
    LastLabel(host);
  }

  lemma AcceptedDomainAgain(lib: TextLib, value: string)
    requires LowerLaws(lib) && ValidateBareDomain(lib, value).Accepted?
    ensures ValidateBareDomain(lib, ValidateBareDomain(lib, value).value) == ValidateBareDomain(lib, value)
  {
    AcceptedDomainIsNormal(lib, value);
  }

  /** Canonicalization is idempotent on success: submitting a stored entry again gives the same entry. */
  lemma CanonicalizeIdempotent(lib: TextLib, kind: Kind, value: string, typ: Option<ObsType>)
    requires Laws(lib) && CanonicalizeEntry(lib, kind, value, typ).Accepted?
    ensures var c := CanonicalizeEntry(lib, kind, value, typ);
      && CanonicalizeEntry(lib, kind, c.value, Some(c.typ)) == c
      && (typ.Some? ==> c.typ == typ.value)
  {
    var text := Strip(lib, value);
    StripIdempotent(lib, value);
    var domain := kind == DomainSuffix || (kind == Exact && typ == Some(DomainName));
    if domain {
      AcceptedDomainIsNormal(lib, text);
      AcceptedDomainAgain(lib, text);
    }
  }

  // ── What one entry allows ─────────────────────────────────────────────

  predicate EndsWith(s: string, t: string) {
    |t| <= |s| && s[|s| - |t|..] == t
  }

  /** An exact entry for this address, or a block that contains it. */
  predicate AllowsAddress(lib: TextLib, e: Entry, a: Address) {
    match e.kind
    case Exact => e.typ == IpAddr && e.value == lib.showAddress(a)
    case DomainSuffix => false
    case Cidr =>
      var n := lib.parseNetwork(e.value);
      n.Some? && n.value.version == a.version && n.value.prefixLength <= MaxPrefix(a.version) &&
      n.value.base <= a.value < n.value.base + Pow2(Shift(n.value))
  }

  /** An exact entry for an address in the range, or a block that shares an address with it. */
  ghost predicate AllowsRange(lib: TextLib, e: Entry, r: Network) {
    match e.kind
    case Exact =>
      var a := lib.parseAddress(e.value);
      e.typ == IpAddr && a.Some? && a.value.version == r.version && InBlock(a.value.value, r)
    case DomainSuffix => false
    case Cidr =>
      var n := lib.parseNetwork(e.value);
      n.Some? && n.value.version == r.version && exists v: nat :: InBlock(v, r) && InBlock(v, n.value)
  }

  predicate AllowsHost(e: Entry, host: string) {
    match e.kind
    case Exact => e.typ == DomainName && e.value == host
    case DomainSuffix => host != "" && (host == e.value || EndsWith(host, "." + e.value))
    case Cidr => false
  }

  /** The policy one entry at a time, without any index. */
  ghost predicate Allows(lib: TextLib, e: Entry, typ: ObsType, value: string) {
    match typ
    case IpAddr =>
      var text := Strip(lib, value);
      var a := lib.parseAddress(text);
      if a.Some? then AllowsAddress(lib, e, a.value)
      else '/' in text && lib.parseNetwork(text).Some? && AllowsRange(lib, e, lib.parseNetwork(text).value)
    case DomainName => AllowsHost(e, NormalizeHostname(lib, value))
    case _ => e.kind == Exact && e.typ == typ && e.value == value
  }

  // ── The same policy, kind by kind ─────────────────────────────────────

  function Bits(v: Version): nat {
    if v == V4 then 32 else 128
  }

  /** The address v is in the block: it shares the block's leading bits. */
  predicate Holds(n: Network, v: nat) {
    n.prefixLength <= Bits(n.version) && n.base <= v < n.base + Pow2(Bits(n.version) - n.prefixLength)
  }

  /** The observable text is an address, or else a block written with a slash, and v is that address or one inside the block. */
  ghost predicate Denotes(lib: TextLib, text: string, version: Version, v: nat) {
    match lib.parseAddress(text)
    case Some(a) => a.version == version && a.value == v
    case None =>
      '/' in text && lib.parseNetwork(text).Some? &&
      lib.parseNetwork(text).value.version == version && Holds(lib.parseNetwork(text).value, v)
  }

  /** An exact entry covers an address that prints as it and a block that holds it. */
  predicate NamesAddress(lib: TextLib, text: string, e: Entry) {
    match lib.parseAddress(text)
    case Some(a) => lib.showAddress(a) == e.value
    case None =>
      var a, n := lib.parseAddress(e.value), lib.parseNetwork(text);
      '/' in text && n.Some? && a.Some? && a.value.version == n.value.version && Holds(n.value, a.value.value)
  }

  /** A block covers what it has an address in common with. */
  ghost predicate BlockCovers(lib: TextLib, text: string, e: Entry) {
    exists n, v: nat :: SharesAddress(lib, text, e, n, v)
  }

  ghost predicate SharesAddress(lib: TextLib, text: string, e: Entry, n: Network, v: nat) {
    lib.parseNetwork(e.value) == Some(n) && Holds(n, v) && Denotes(lib, text, n.version, v)
  }

  /** The host is the suffix itself or a name below it. */
  ghost predicate AtOrBelow(host: string, suffix: string) {
    host == suffix || exists below :: host == below + "." + suffix
  }

  ghost predicate Covers(lib: TextLib, e: Entry, typ: ObsType, value: string) {
    match e.kind
    case Cidr => typ == IpAddr && BlockCovers(lib, Strip(lib, value), e)
    case DomainSuffix =>
      typ == DomainName && NormalizeHostname(lib, value) != "" && AtOrBelow(NormalizeHostname(lib, value), e.value)
    case Exact =>
      && e.typ == typ
      && (typ == IpAddr ==> NamesAddress(lib, Strip(lib, value), e))
      && (typ == DomainName ==> e.value == NormalizeHostname(lib, value))
      && (typ != IpAddr && typ != DomainName ==> e.value == value)
  }

  lemma AtOrBelowIff(host: string, suffix: string)
    ensures AtOrBelow(host, suffix) <==> host == suffix || EndsWith(host, "." + suffix)
  {
    if EndsWith(host, "." + suffix) {
      assert host == host[..|host| - |suffix| - 1] + "." + suffix;
    }
    if below :| host == below + "." + suffix {
      assert host[|host| - |suffix| - 1..] == "." + suffix;
    }
  }

  lemma HoldsIff(n: Network, v: nat)
    requires ValidNetwork(n)
    ensures Holds(n, v) <==> InBlock(v, n)
  {
    InBlockIsInterval(v, n);
  }

  lemma BlockCoversIff(lib: TextLib, text: string, e: Entry)
    requires NetworkLaws(lib) && e.kind == Cidr
    ensures BlockCovers(lib, text, e) <==>
      match lib.parseAddress(text)
      case Some(a) => AllowsAddress(lib, e, a)
      case None => '/' in text && lib.parseNetwork(text).Some? && AllowsRange(lib, e, lib.parseNetwork(text).value)
  {
    forall n: Network, v: nat | ValidNetwork(n)
      ensures Holds(n, v) <==> InBlock(v, n)
    {
      HoldsIff(n, v);
    }
    var own := lib.parseNetwork(e.value);
    if own.Some? {
      match lib.parseAddress(text)
      case Some(a) =>
        assert AllowsAddress(lib, e, a) ==> SharesAddress(lib, text, e, own.value, a.value);
      case None =>
        assert forall v: nat :: lib.parseNetwork(text).Some? ==>
          (SharesAddress(lib, text, e, own.value, v) <==>
            '/' in text && lib.parseNetwork(text).value.version == own.value.version &&
            InBlock(v, lib.parseNetwork(text).value) && InBlock(v, own.value));
    }
  }

  /** Read type by type or kind by kind, the policy is the same. */
  lemma AllowsIffCovers(lib: TextLib, e: Entry, typ: ObsType, value: string)
    requires NetworkLaws(lib)
    ensures Allows(lib, e, typ, value) <==> Covers(lib, e, typ, value)
  {
    var text := Strip(lib, value);
    match e.kind
    case Cidr => BlockCoversIff(lib, text, e);
    case DomainSuffix => AtOrBelowIff(NormalizeHostname(lib, value), e.value);
    case Exact =>
      if lib.parseNetwork(text).Some? && lib.parseAddress(e.value).Some? {
        HoldsIff(lib.parseNetwork(text).value, lib.parseAddress(e.value).value.value);
      }
  }

  /** A suffix entry that allows a host allows every name below it. */
  lemma SubdomainsAllowed(e: Entry, host: string, below: string)
    requires e.kind == DomainSuffix && AllowsHost(e, host)
    ensures AllowsHost(e, below + "." + host)
  {
    var name := below + "." + host;
    if host == e.value {
      assert name[|name| - |host| - 1..] == "." + host;
    } else {
      assert name[|name| - |e.value| - 1..] == host[|host| - |e.value| - 1..];
    }
  }

  /** An entry made from an observable's own value and type allows that observable, whatever its kind. */
  lemma OwnEntryAllows(lib: TextLib, kind: Kind, value: string, typ: ObsType, id: nat)
    requires Laws(lib) && CanonicalizeEntry(lib, kind, value, Some(typ)).Accepted?
    ensures var c := CanonicalizeEntry(lib, kind, value, Some(typ));
      c.typ == typ && Allows(lib, Entry(id, kind, typ, c.value), typ, value)
  {
    var text := Strip(lib, value);
    StripIdempotent(lib, value);
    if kind == DomainSuffix || (kind == Exact && typ == DomainName) {
      AcceptedDomainIsNormal(lib, text);
    } else if kind == Cidr {
      OwnBlockAllows(lib, text, id);
    }
  }

  lemma OwnBlockAllows(lib: TextLib, text: string, id: nat)
    requires Laws(lib) && Strip(lib, text) == text && lib.parseNetwork(text).Some?
    ensures Allows(lib, Entry(id, Cidr, IpAddr, lib.showNetwork(lib.parseNetwork(text).value)), IpAddr, text)
  {
    var n := lib.parseNetwork(text).value;
    OwnEnds(n);
    if lib.parseAddress(text).Some? {
      assert IsHostBlock(n, lib.parseAddress(text).value);
    }
  }

  /** As stored: the value is what canonicalization made of it. */
  ghost predicate StoredForm(lib: TextLib, e: Entry) {
    exists value :: CanonicalizeEntry(lib, e.kind, value, Some(e.typ)) == Accepted(e.value, e.typ)
  }

  /** The observable value is a single address inside r. */
  ghost predicate AddressWithin(lib: TextLib, value: string, r: Network) {
    var a := lib.parseAddress(Strip(lib, value));
    a.Some? && a.value.version == r.version && InBlock(a.value.value, r)
  }

  /** A range is allowlisted by an entry exactly when some single address inside it is. */
  lemma RangeIffSomeAddress(lib: TextLib, e: Entry, r: Network)
    requires Laws(lib) && ValidNetwork(r) && StoredForm(lib, e)
    ensures AllowsRange(lib, e, r) <==>
      exists value :: AddressWithin(lib, value, r) && Allows(lib, e, IpAddr, value)
  {
    if AllowsRange(lib, e, r) {
      SomeAddressInRange(lib, e, r);
    }
    if value :| AddressWithin(lib, value, r) && Allows(lib, e, IpAddr, value) {
      RangeAllowed(lib, e, r, value);
    }
  }

  /** A stored exact address prints as it is written, and so parses back. */
  lemma StoredAddress(lib: TextLib, e: Entry)
    requires Laws(lib) && StoredForm(lib, e) && e.kind == Exact && e.typ == IpAddr
    ensures Strip(lib, e.value) == e.value
    ensures lib.parseAddress(e.value).Some? && lib.showAddress(lib.parseAddress(e.value).value) == e.value
  {
    var value :| CanonicalizeEntry(lib, e.kind, value, Some(e.typ)) == Accepted(e.value, e.typ);
    StripIdempotent(lib, value);
  }

  lemma SomeAddressInRange(lib: TextLib, e: Entry, r: Network)
    requires Laws(lib) && ValidNetwork(r) && StoredForm(lib, e) && AllowsRange(lib, e, r)
    ensures exists value :: AddressWithin(lib, value, r) && Allows(lib, e, IpAddr, value)
  {
    if e.kind == Exact {
      StoredAddress(lib, e);
      assert AddressWithin(lib, e.value, r) && Allows(lib, e, IpAddr, e.value);
    } else {
      var n := lib.parseNetwork(e.value).value;
      var v: nat :| InBlock(v, r) && InBlock(v, n);
      InBlockIsInterval(v, n);
      var a := Address(r.version, v, None);
      assert PrintsBack(lib, a);
      assert AddressWithin(lib, lib.showAddress(a), r) && Allows(lib, e, IpAddr, lib.showAddress(a));
    }
  }

  lemma RangeAllowed(lib: TextLib, e: Entry, r: Network, value: string)
    requires Laws(lib) && ValidNetwork(r) && AddressWithin(lib, value, r) && Allows(lib, e, IpAddr, value)
    ensures AllowsRange(lib, e, r)
  {
    var text := Strip(lib, value);
    var a := lib.parseAddress(text).value;
    StripIdempotent(lib, value);
    if e.kind == Exact {
      assert lib.parseAddress(e.value) == Some(a);
    } else {
      InBlockIsInterval(a.value, lib.parseNetwork(e.value).value);
    }
  }

  // ── One address and its own block ─────────────────────────────────────

  /** The exact entry names the same number under another scope. */
  predicate OtherScope(lib: TextLib, e: Entry, a: Address) {
    e.kind == Exact && e.typ == IpAddr && lib.parseAddress(e.value).Some? &&
    var b := lib.parseAddress(e.value).value;
    b.version == a.version && b.value == a.value && b.scope != a.scope
  }

  /** An entry allows x/32 (or x/128) exactly when it allows x or is an exact entry for x under another scope. */
  lemma HostBlockIff(lib: TextLib, e: Entry, a: Address, r: Network)
    requires Laws(lib) && ValidNetwork(r) && IsHostBlock(r, a) && StoredForm(lib, e) && PrintsBack(lib, a)
    ensures AllowsRange(lib, e, r) <==> AllowsAddress(lib, e, a) || OtherScope(lib, e, a)
    ensures !(AllowsAddress(lib, e, a) && OtherScope(lib, e, a))
  {
    match e.kind
    case Exact =>
      if e.typ == IpAddr {
        StoredAddress(lib, e);
        HostBlock(r, lib.parseAddress(e.value).value.value);
      }
    case Cidr =>
      var n := lib.parseNetwork(e.value);
      if n.Some? {
        HostBlockInBlock(r, n.value);
      }
    case DomainSuffix =>
  }

  lemma HostBlockInBlock(r: Network, n: Network)
    requires ValidNetwork(r) && ValidNetwork(n) && r.prefixLength == MaxPrefix(r.version)
    ensures (exists v: nat :: InBlock(v, r) && InBlock(v, n)) <==> n.base <= r.base < n.base + Pow2(Shift(n))
  {
    OwnEnds(r);
    InBlockIsInterval(r.base, n);
    if v: nat :| InBlock(v, r) && InBlock(v, n) {
      HostBlock(r, v);
    }
  }

  const LINK_LOCAL_ONE: nat := 0xfe80_0000_0000_0000_0000_0000_0000_0001

  /** An exact entry fe80::1%eth0 allows the range fe80::1/128 but not the address fe80::1. */
  lemma ScopedEntryDisagrees(lib: TextLib, id: nat)
    requires lib.showAddress(Address(V6, LINK_LOCAL_ONE, None)) == "fe80::1"
    requires lib.parseAddress("fe80::1%eth0") == Some(Address(V6, LINK_LOCAL_ONE, Some("eth0")))
    ensures var e := Entry(id, Exact, IpAddr, "fe80::1%eth0");
      && AllowsRange(lib, e, Network(V6, LINK_LOCAL_ONE, 128, None))
      && !AllowsAddress(lib, e, Address(V6, LINK_LOCAL_ONE, None))
  {
    assert |"fe80::1%eth0"| != |"fe80::1"|;
    assert Masked(LINK_LOCAL_ONE, 0) == LINK_LOCAL_ONE;
  }

  // ── The laws can hold ─────────────────────────────────────────────────

  function Tally(n: nat): (s: string)
    ensures |s| == n && forall i :: 0 <= i < n ==> s[i] == '1'
  {
    if n == 0 then "" else Tally(n - 1) + "1"
  }

  function TallyAddress(a: Address): string {
    (if a.version == V4 then "4" else "6") + Tally(a.value)
  }

  function ReadTally(t: string): Option<Address> {
    if t == "" || t != (if t[0] == '4' then "4" else "6") + Tally(|t| - 1) then None
    else
      var a := Address(if t[0] == '4' then V4 else V6, |t| - 1, None);
      if ValidAddress(a) then Some(a) else None
  }

  lemma TallyReadsBack(a: Address)
    requires ValidAddress(a) && a.scope.None?
    ensures ReadTally(TallyAddress(a)) == Some(a)
  {
    assert TallyAddress(a)[0] == (if a.version == V4 then '4' else '6');
  }

  /** A library without spaces or networks that writes addresses in unary meets the laws, so what they imply is not vacuous. */
  lemma LawsCanHold()
    ensures exists lib :: Laws(lib) && TrimLaws(lib)
  {
    var lib := TextLib(s => s, c => false, c => true, ReadTally, t => None, TallyAddress, n => "");
    forall t
      ensures Strip(lib, t) == t
    {
      StripIdempotent(lib, t);
    }
    forall a: Address | ValidAddress(a) && a.scope.None?
      ensures PrintsBack(lib, a)
    {
      TallyReadsBack(a);
    }
    forall t | lib.parseAddress(t).Some?
      ensures lib.parseAddress(t).value.scope.None? && ValidAddress(lib.parseAddress(t).value)
    {
    }
    assert LowerLaws(lib) && AddressLaws(lib) && UnscopedLaws(lib) && NetworkLaws(lib);
    assert Laws(lib) && TrimLaws(lib);
  }
}
