/** The matcher: dictionaries built once from the entries, and look-ups that agree with the policy entry by entry. */
module Allowlist {
  import opened Wrappers
  import opened Observables
  import opened AddressBlocks
  import opened AllowlistPolicy
  import opened HostSpans
  import UrlNormal
  import Sorting

  // ── Ids of the entries that pass a test ───────────────────────────────

  function IdsOf(entries: seq<Entry>, test: Entry -> bool): seq<nat> {
    if entries == [] then []
    else
      var last := entries[|entries| - 1];
      IdsOf(entries[..|entries| - 1], test) + (if test(last) then [last.id] else [])
  }

  ghost function IdsWhere(entries: seq<Entry>, test: Entry -> bool): multiset<nat> {
    multiset(IdsOf(entries, test))
  }

  lemma IdsStep(entries: seq<Entry>, e: Entry, test: Entry -> bool)
    ensures IdsOf(entries + [e], test) == IdsOf(entries, test) + (if test(e) then [e.id] else [])
  {
    assert (entries + [e])[..|entries|] == entries;
  }

  /** The ids of a disjunction are those of its disjuncts, once each. */
  lemma {:induction false} IdsSum(entries: seq<Entry>, p: Entry -> bool, q: Entry -> bool, r: Entry -> bool)
    requires forall e :: e in entries ==> !(p(e) && q(e)) && (r(e) <==> p(e) || q(e))
    ensures IdsWhere(entries, r) == IdsWhere(entries, p) + IdsWhere(entries, q)
  {
    if entries != [] {
      IdsSum(entries[..|entries| - 1], p, q, r);
      assert entries[|entries| - 1] in entries;
    }
  }

  lemma {:induction false} IdsAgree(entries: seq<Entry>, p: Entry -> bool, q: Entry -> bool)
    requires forall e :: e in entries ==> (p(e) <==> q(e))
    ensures IdsOf(entries, p) == IdsOf(entries, q)
  {
    if entries != [] {
      IdsAgree(entries[..|entries| - 1], p, q);
      assert entries[|entries| - 1] in entries;
    }
  }

  lemma {:induction false} IdsEmpty(entries: seq<Entry>, p: Entry -> bool)
    ensures IdsOf(entries, p) == [] <==> forall e :: e in entries ==> !p(e)
  {
    if entries != [] {
      IdsEmpty(entries[..|entries| - 1], p);
      assert entries[|entries| - 1] in entries;
      assert entries == entries[..|entries| - 1] + [entries[|entries| - 1]];
    }
  }

  // ── The dictionaries ──────────────────────────────────────────────────

  function Lookup<K>(m: map<K, seq<nat>>, k: K): seq<nat> {
    if k in m then m[k] else []
  }

  /** `m.setdefault(k, []).append(id)`. */
  function AppendId<K>(m: map<K, seq<nat>>, k: K, id: nat): map<K, seq<nat>> {
    m[k := Lookup(m, k) + [id]]
  }

  /** Prefix length, then network integer, then entry ids. */
  type PrefixIndex = map<nat, map<nat, seq<nat>>>

  function IndexIds(index: PrefixIndex, prefix: nat, base: nat): seq<nat> {
    if prefix in index then Lookup(index[prefix], base) else []
  }

  function IndexAppend(index: PrefixIndex, prefix: nat, base: nat, id: nat): PrefixIndex {
    index[prefix := AppendId(if prefix in index then index[prefix] else map[], base, id)]
  }

  function ExactTest(k: Key): Entry -> bool {
    (e: Entry) => e.kind == Exact && Key(e.typ, e.value) == k
  }

  function SuffixTest(value: string): Entry -> bool {
    (e: Entry) => e.kind == DomainSuffix && e.value == value
  }

  predicate IsBlock(lib: TextLib, e: Entry, v: Version, prefix: nat, base: nat) {
    e.kind == Cidr &&
    var n := lib.parseNetwork(e.value);
    n.Some? && n.value.version == v && n.value.prefixLength == prefix && n.value.base == base
  }

  function BlockTest(lib: TextLib, v: Version, prefix: nat, base: nat): Entry -> bool {
    (e: Entry) => IsBlock(lib, e, v, prefix, base)
  }

  /** The address an exact entry puts in the range list, and the network a CIDR entry puts there. */
  function EntryAddress(lib: TextLib, e: Entry): Option<Address> {
    if e.kind == Exact && e.typ == IpAddr then lib.parseAddress(e.value) else None
  }

  function EntryNetwork(lib: TextLib, e: Entry): Option<Network> {
    if e.kind == Cidr then lib.parseNetwork(e.value) else None
  }

  function AddressList(lib: TextLib, entries: seq<Entry>, v: Version): seq<(Address, nat)> {
    if entries == [] then []
    else
      var last := entries[|entries| - 1];
      var a := EntryAddress(lib, last);
      AddressList(lib, entries[..|entries| - 1], v) +
      (if a.Some? && a.value.version == v then [(a.value, last.id)] else [])
  }

  function NetworkList(lib: TextLib, entries: seq<Entry>, v: Version): seq<(Network, nat)> {
    if entries == [] then []
    else
      var last := entries[|entries| - 1];
      var n := EntryNetwork(lib, last);
      NetworkList(lib, entries[..|entries| - 1], v) +
      (if n.Some? && n.value.version == v then [(n.value, last.id)] else [])
  }

  lemma ListStep(lib: TextLib, entries: seq<Entry>, e: Entry, v: Version)
    ensures AddressList(lib, entries + [e], v) == AddressList(lib, entries, v) +
      (if EntryAddress(lib, e).Some? && EntryAddress(lib, e).value.version == v then [(EntryAddress(lib, e).value, e.id)] else [])
    ensures NetworkList(lib, entries + [e], v) == NetworkList(lib, entries, v) +
      (if EntryNetwork(lib, e).Some? && EntryNetwork(lib, e).value.version == v then [(EntryNetwork(lib, e).value, e.id)] else [])
  {
    assert (entries + [e])[..|entries|] == entries;
  }

  ghost predicate ExactIndexed(entries: seq<Entry>, exact: map<Key, seq<nat>>) {
    forall k :: Lookup(exact, k) == IdsOf(entries, ExactTest(k))
  }

  ghost predicate SuffixIndexed(entries: seq<Entry>, suffixes: map<string, seq<nat>>) {
    && (forall value :: Lookup(suffixes, value) == IdsOf(entries, SuffixTest(value)))
    && (suffixes == map[] <==> NoSuffixes(entries))
  }

  ghost predicate NoSuffixes(entries: seq<Entry>) {
    forall e :: e in entries ==> e.kind != DomainSuffix
  }

  /** One version's networks, its index and its exact addresses. */
  datatype Tables = Tables(networks: seq<(Network, nat)>, index: PrefixIndex, addresses: seq<(Address, nat)>)

  ghost predicate BlocksIndexed(lib: TextLib, entries: seq<Entry>, v: Version, index: PrefixIndex) {
    forall prefix, base :: IndexIds(index, prefix, base) == IdsOf(entries, BlockTest(lib, v, prefix, base))
  }

  ghost predicate PrefixesFit(v: Version, index: PrefixIndex) {
    forall prefix :: prefix in index ==> prefix <= MaxPrefix(v)
  }

  ghost predicate TablesFor(lib: TextLib, entries: seq<Entry>, v: Version, t: Tables) {
    && t.networks == NetworkList(lib, entries, v)
    && t.addresses == AddressList(lib, entries, v)
    && BlocksIndexed(lib, entries, v, t.index)
    && PrefixesFit(v, t.index)
  }

  function AddExact(exact: map<Key, seq<nat>>, e: Entry): map<Key, seq<nat>> {
    if e.kind == Exact then AppendId(exact, Key(e.typ, e.value), e.id) else exact
  }

  function AddSuffix(suffixes: map<string, seq<nat>>, e: Entry): map<string, seq<nat>> {
    if e.kind == DomainSuffix then AppendId(suffixes, e.value, e.id) else suffixes
  }

  lemma ExactStep(entries: seq<Entry>, exact: map<Key, seq<nat>>, e: Entry)
    requires ExactIndexed(entries, exact)
    ensures ExactIndexed(entries + [e], AddExact(exact, e))
  {
    forall k
      ensures IdsOf(entries + [e], ExactTest(k)) == IdsOf(entries, ExactTest(k)) + (if ExactTest(k)(e) then [e.id] else [])
    {
      IdsStep(entries, e, ExactTest(k));
    }
  }

  lemma SuffixStep(entries: seq<Entry>, suffixes: map<string, seq<nat>>, e: Entry)
    requires SuffixIndexed(entries, suffixes)
    ensures SuffixIndexed(entries + [e], AddSuffix(suffixes, e))
  {
    forall k
      ensures IdsOf(entries + [e], SuffixTest(k)) == IdsOf(entries, SuffixTest(k)) + (if SuffixTest(k)(e) then [e.id] else [])
    {
      IdsStep(entries, e, SuffixTest(k));
    }
    SuffixesNonempty(entries, suffixes, e);
  }

  lemma SuffixesNonempty(entries: seq<Entry>, suffixes: map<string, seq<nat>>, e: Entry)
    requires suffixes == map[] <==> NoSuffixes(entries)
    ensures AddSuffix(suffixes, e) == map[] <==> NoSuffixes(entries + [e])
  {
    if e.kind == DomainSuffix {
      assert (entries + [e])[|entries|] == e && e.value in AddSuffix(suffixes, e);
    }
  }

  /** All the dictionaries of a matcher. */
  datatype Dicts = Dicts(exact: map<Key, seq<nat>>, suffixes: map<string, seq<nat>>, four: Tables, six: Tables)

  /** Every dictionary agrees with the entries. */
  ghost predicate Indexed(lib: TextLib, entries: seq<Entry>, d: Dicts) {
    && ExactIndexed(entries, d.exact) && SuffixIndexed(entries, d.suffixes)
    && TablesFor(lib, entries, V4, d.four) && TablesFor(lib, entries, V6, d.six)
  }

  function AddTo(lib: TextLib, d: Dicts, e: Entry): Dicts {
    Dicts(AddExact(d.exact, e), AddSuffix(d.suffixes, e), AddEntry(lib, V4, d.four, e), AddEntry(lib, V6, d.six, e))
  }

  const NO_TABLES := Tables([], map[], [])

  lemma NothingIndexed(lib: TextLib)
    ensures Indexed(lib, [], Dicts(map[], map[], NO_TABLES, NO_TABLES))
  {
  }

  lemma IndexedStep(lib: TextLib, entries: seq<Entry>, d: Dicts, e: Entry)
    requires NetworkLaws(lib) && Indexed(lib, entries, d)
    ensures Indexed(lib, entries + [e], AddTo(lib, d, e))
  {
    ExactStep(entries, d.exact, e);
    SuffixStep(entries, d.suffixes, e);
    TablesStep(lib, entries, V4, d.four, e);
    TablesStep(lib, entries, V6, d.six, e);
  }

  function AddEntry(lib: TextLib, v: Version, t: Tables, e: Entry): Tables {
    var a, n := EntryAddress(lib, e), EntryNetwork(lib, e);
    if a.Some? && a.value.version == v then t.(addresses := t.addresses + [(a.value, e.id)])
    else if n.Some? && n.value.version == v then
      t.(networks := t.networks + [(n.value, e.id)],
         index := IndexAppend(t.index, n.value.prefixLength, n.value.base, e.id))
    else t
  }

  lemma TablesStep(lib: TextLib, entries: seq<Entry>, v: Version, t: Tables, e: Entry)
    requires NetworkLaws(lib) && TablesFor(lib, entries, v, t)
    ensures TablesFor(lib, entries + [e], v, AddEntry(lib, v, t, e))
  {
    ListStep(lib, entries, e, v);
    BlocksStep(lib, entries, v, t, e);
  }

  lemma BlocksStep(lib: TextLib, entries: seq<Entry>, v: Version, t: Tables, e: Entry)
    requires NetworkLaws(lib) && BlocksIndexed(lib, entries, v, t.index) && PrefixesFit(v, t.index)
    ensures BlocksIndexed(lib, entries + [e], v, AddEntry(lib, v, t, e).index)
    ensures PrefixesFit(v, AddEntry(lib, v, t, e).index)
  {
    forall prefix, base
      ensures IndexIds(AddEntry(lib, v, t, e).index, prefix, base) == IdsOf(entries + [e], BlockTest(lib, v, prefix, base))
    {
      IdsStep(entries, e, BlockTest(lib, v, prefix, base));
    }
  }

  // ── Address look-up ───────────────────────────────────────────────────

  /** An exact entry for the address, or a containing block with one of these prefix lengths. */
  predicate AllowsUpTo(lib: TextLib, e: Entry, a: Address, prefixes: set<nat>) {
    AllowsAddress(lib, e, a) &&
    (e.kind == Cidr ==> lib.parseNetwork(e.value).Some? && lib.parseNetwork(e.value).value.prefixLength in prefixes)
  }

  function UpToTest(lib: TextLib, a: Address, prefixes: set<nat>): Entry -> bool {
    (e: Entry) => AllowsUpTo(lib, e, a, prefixes)
  }

  function AddressTest(lib: TextLib, a: Address): Entry -> bool {
    (e: Entry) => AllowsAddress(lib, e, a)
  }

  /** One probe: every block of this prefix length that contains the address. */
  lemma ProbeStep(lib: TextLib, entries: seq<Entry>, a: Address, prefixes: set<nat>, prefix: nat)
    requires NetworkLaws(lib) && prefix <= MaxPrefix(a.version) && prefix !in prefixes
    ensures Masked(a.value, MaxPrefix(a.version) - prefix) >= 0
    ensures IdsWhere(entries, UpToTest(lib, a, prefixes + {prefix})) ==
      IdsWhere(entries, UpToTest(lib, a, prefixes)) +
      IdsWhere(entries, BlockTest(lib, a.version, prefix, Masked(a.value, MaxPrefix(a.version) - prefix)))
  {
    var shift := MaxPrefix(a.version) - prefix;
    DivMod(a.value, Pow2(shift));
    var base: nat := Masked(a.value, shift);
    forall e | e in entries
      ensures IsBlock(lib, e, a.version, prefix, base) ==
        (AllowsUpTo(lib, e, a, prefixes + {prefix}) && !AllowsUpTo(lib, e, a, prefixes))
      ensures AllowsUpTo(lib, e, a, prefixes) ==> AllowsUpTo(lib, e, a, prefixes + {prefix})
    {
      ProbeEntry(lib, e, a, prefixes, prefix, base);
    }
    IdsSum(entries, UpToTest(lib, a, prefixes), BlockTest(lib, a.version, prefix, base), UpToTest(lib, a, prefixes + {prefix}));
  }

  lemma ProbeIndex(lib: TextLib, entries: seq<Entry>, a: Address, index: PrefixIndex, prefixes: set<nat>, prefix: nat)
    requires NetworkLaws(lib) && BlocksIndexed(lib, entries, a.version, index) && PrefixesFit(a.version, index)
    requires prefix in index && prefix !in prefixes
    ensures prefix <= MaxPrefix(a.version) && Masked(a.value, MaxPrefix(a.version) - prefix) >= 0
    ensures IdsWhere(entries, UpToTest(lib, a, prefixes + {prefix})) ==
      IdsWhere(entries, UpToTest(lib, a, prefixes)) +
      multiset(Lookup(index[prefix], Masked(a.value, MaxPrefix(a.version) - prefix)))
  {
    ProbeStep(lib, entries, a, prefixes, prefix);
    var base: nat := Masked(a.value, MaxPrefix(a.version) - prefix);
    assert IndexIds(index, prefix, base) == IdsOf(entries, BlockTest(lib, a.version, prefix, base));
  }

  lemma ProbeEntry(lib: TextLib, e: Entry, a: Address, prefixes: set<nat>, prefix: nat, base: nat)
    requires NetworkLaws(lib) && prefix <= MaxPrefix(a.version) && prefix !in prefixes
    requires base == Masked(a.value, MaxPrefix(a.version) - prefix)
    ensures IsBlock(lib, e, a.version, prefix, base) ==
      (AllowsUpTo(lib, e, a, prefixes + {prefix}) && !AllowsUpTo(lib, e, a, prefixes))
    ensures AllowsUpTo(lib, e, a, prefixes) ==> AllowsUpTo(lib, e, a, prefixes + {prefix})
  {
    if e.kind == Cidr && lib.parseNetwork(e.value).Some? {
      var n := lib.parseNetwork(e.value).value;
      if n.version == a.version && n.prefixLength == prefix {
        InBlockIsInterval(a.value, n);
      }
    }
  }

  /** A block outside every prefix length of the index belongs to no entry. */
  lemma AllProbed(lib: TextLib, entries: seq<Entry>, a: Address, index: PrefixIndex)
    requires NetworkLaws(lib) && BlocksIndexed(lib, entries, a.version, index)
    ensures IdsOf(entries, UpToTest(lib, a, index.Keys)) == IdsOf(entries, AddressTest(lib, a))
  {
    forall e | e in entries
      ensures AllowsUpTo(lib, e, a, index.Keys) <==> AllowsAddress(lib, e, a)
    {
      if e.kind == Cidr && AllowsAddress(lib, e, a) {
        var n := lib.parseNetwork(e.value).value;
        IdsEmpty(entries, BlockTest(lib, a.version, n.prefixLength, n.base));
        assert BlockTest(lib, a.version, n.prefixLength, n.base)(e);
        assert IndexIds(index, n.prefixLength, n.base) != [];
      }
    }
    IdsAgree(entries, UpToTest(lib, a, index.Keys), AddressTest(lib, a));
  }

  lemma NothingProbed(lib: TextLib, entries: seq<Entry>, a: Address)
    ensures IdsOf(entries, UpToTest(lib, a, {})) == IdsOf(entries, ExactTest(Key(IpAddr, lib.showAddress(a))))
  {
    IdsAgree(entries, UpToTest(lib, a, {}), ExactTest(Key(IpAddr, lib.showAddress(a))));
  }

  // ── Range look-up ─────────────────────────────────────────────────────

  function AddressesIn(pairs: seq<(Address, nat)>, r: Network): seq<nat> {
    if pairs == [] then []
    else
      var last := pairs[|pairs| - 1];
      AddressesIn(pairs[..|pairs| - 1], r) + (if InBlock(last.0.value, r) then [last.1] else [])
  }

  function NetworksOver(pairs: seq<(Network, nat)>, r: Network): seq<nat> {
    if pairs == [] then []
    else
      var last := pairs[|pairs| - 1];
      NetworksOver(pairs[..|pairs| - 1], r) + (if BlocksOverlap(r, last.0) then [last.1] else [])
  }

  ghost function RangeTest(lib: TextLib, r: Network): Entry -> bool {
    (e: Entry) => AllowsRange(lib, e, r)
  }

  ghost function ExactInRange(lib: TextLib, r: Network): Entry -> bool {
    (e: Entry) => e.kind == Exact && AllowsRange(lib, e, r)
  }

  ghost function BlockOverRange(lib: TextLib, r: Network): Entry -> bool {
    (e: Entry) => e.kind == Cidr && AllowsRange(lib, e, r)
  }

  lemma InStep(pairs: seq<(Address, nat)>, p: (Address, nat), r: Network)
    ensures AddressesIn(pairs + [p], r) == AddressesIn(pairs, r) + (if InBlock(p.0.value, r) then [p.1] else [])
  {
    assert (pairs + [p])[..|pairs|] == pairs;
  }

  lemma OverStep(pairs: seq<(Network, nat)>, p: (Network, nat), r: Network)
    ensures NetworksOver(pairs + [p], r) == NetworksOver(pairs, r) + (if BlocksOverlap(r, p.0) then [p.1] else [])
  {
    assert (pairs + [p])[..|pairs|] == pairs;
  }

  lemma {:induction false} AddressesInMeans(lib: TextLib, entries: seq<Entry>, r: Network)
    ensures AddressesIn(AddressList(lib, entries, r.version), r) == IdsOf(entries, ExactInRange(lib, r))
  {
    if entries != [] {
      var front, last := entries[..|entries| - 1], entries[|entries| - 1];
      AddressesInMeans(lib, front, r);
      var pairs, a := AddressList(lib, front, r.version), EntryAddress(lib, last);
      if a.Some? && a.value.version == r.version {
        InStep(pairs, (a.value, last.id), r);
      } else {
        assert pairs + [] == pairs;
      }
    }
  }

  lemma {:induction false} NetworksOverMeans(lib: TextLib, entries: seq<Entry>, r: Network)
    requires NetworkLaws(lib) && ValidNetwork(r)
    ensures NetworksOver(NetworkList(lib, entries, r.version), r) == IdsOf(entries, BlockOverRange(lib, r))
  {
    if entries != [] {
      var front, last := entries[..|entries| - 1], entries[|entries| - 1];
      NetworksOverMeans(lib, front, r);
      var pairs, n := NetworkList(lib, front, r.version), EntryNetwork(lib, last);
      if n.Some? && n.value.version == r.version {
        OverlapsIffShared(r, n.value);
        OverStep(pairs, (n.value, last.id), r);
      } else {
        assert pairs + [] == pairs;
      }
    }
  }

  lemma RangeSum(lib: TextLib, entries: seq<Entry>, r: Network)
    ensures IdsWhere(entries, RangeTest(lib, r)) ==
      IdsWhere(entries, ExactInRange(lib, r)) + IdsWhere(entries, BlockOverRange(lib, r))
  {
    IdsSum(entries, ExactInRange(lib, r), BlockOverRange(lib, r), RangeTest(lib, r));
  }

  // ── Domain look-up ────────────────────────────────────────────────────

  /** `".".join(labels)`. */
  function JoinDots(labels: seq<string>): string {
    if labels == [] then "" else if |labels| == 1 then labels[0] else labels[0] + "." + JoinDots(labels[1..])
  }

  lemma {:induction false} JoinAppend(labels: seq<string>, x: string)
    requires labels != []
    ensures JoinDots(labels + [x]) == JoinDots(labels) + "." + x
  {
    assert (labels + [x])[1..] == labels[1..] + [x];
    if |labels| > 1 {
      JoinAppend(labels[1..], x);
    }
  }

  predicate NoDot(s: string) {
    forall i :: 0 <= i < |s| ==> s[i] != '.'
  }

  /** Splitting at dots and joining gives the host back, and no label holds a dot. */
  lemma {:induction false} LabelsJoin(host: string)
    ensures JoinDots(UrlNormal.Labels(host)) == host
    ensures forall i :: 0 <= i < |UrlNormal.Labels(host)| ==> NoDot(UrlNormal.Labels(host)[i])
    decreases |host|
  {
    var dot := FindLast(host, ".", 0, |host|);
    if dot.Some? {
      LabelsJoin(host[..dot.value]);
      JoinAppend(UrlNormal.Labels(host[..dot.value]), host[dot.value + 1..]);
      LastPart(host, dot.value);
      assert host == host[..dot.value] + "." + host[dot.value + 1..];
    } else {
      forall i: nat | i < |host|
        ensures host[i] != '.'
      {
        assert !OneOf(host, i, ".");
      }
    }
  }

  lemma LastPart(host: string, dot: nat)
    requires FindLast(host, ".", 0, |host|) == Some(dot)
    ensures NoDot(host[dot + 1..])
  {
    forall i: nat | dot < i < |host|
      ensures host[i] != '.'
    {
      assert !OneOf(host, i, ".");
    }
  }

  /** The value is one of the names `labels[i:]` joins to. */
  predicate AtLabel(labels: seq<string>, value: string) {
    JoinDots(labels) == value || EndsWith(JoinDots(labels), "." + value)
  }

  lemma AtLabelStep(labels: seq<string>, value: string)
    requires |labels| >= 2 && NoDot(labels[0])
    ensures AtLabel(labels, value) <==> JoinDots(labels) == value || AtLabel(labels[1..], value)
    ensures !(JoinDots(labels) == value && AtLabel(labels[1..], value))
  {
    var head, rest, whole := labels[0], JoinDots(labels[1..]), JoinDots(labels);
    assert whole == head + "." + rest;
    if EndsWith(whole, "." + value) {
      SuffixAfterHead(head, rest, value);
    }
    if AtLabel(labels[1..], value) {
      SuffixOfRest(head, rest, value);
    }
  }

  lemma SuffixAfterHead(head: string, rest: string, value: string)
    requires NoDot(head) && EndsWith(head + "." + rest, "." + value)
    ensures rest == value || EndsWith(rest, "." + value)
  {
    var whole, tail := head + "." + rest, "." + value;
    var at := |whole| - |tail|;
    assert whole[at] == whole[at..][0] == '.';
    forall k | 0 <= k < |head|
      ensures whole[k] != '.'
    {
      assert whole[k] == head[k];
    }
    if at == |head| {
      assert whole[at..] == "." + rest;
      assert rest == whole[at..][1..] == value;
    } else {
      assert whole[at..] == rest[at - |head| - 1..];
    }
  }

  lemma SuffixOfRest(head: string, rest: string, value: string)
    requires rest == value || EndsWith(rest, "." + value)
    ensures EndsWith(head + "." + rest, "." + value) && |value| < |head + "." + rest|
  {
    var whole := head + "." + rest;
    if rest == value {
      assert whole[|head|..] == "." + rest;
    } else {
      assert whole[|whole| - |value| - 1..] == rest[|rest| - |value| - 1..];
    }
  }

  lemma OnlyLabel(labels: seq<string>, value: string)
    requires |labels| == 1 && NoDot(labels[0])
    ensures AtLabel(labels, value) <==> JoinDots(labels) == value
  {
    DotBeforeSuffix(labels[0], value);
  }

  lemma DotBeforeSuffix(s: string, t: string)
    ensures EndsWith(s, "." + t) ==> !NoDot(s)
  {
    if EndsWith(s, "." + t) {
      var at := |s| - |t| - 1;
      assert s[at] == s[at..][0] == '.';
    }
  }

  function AtLabelTest(labels: seq<string>): Entry -> bool {
    (e: Entry) => e.kind == DomainSuffix && AtLabel(labels, e.value)
  }

  /** The ids the suffix loop collects. */
  function SuffixIds(suffixes: map<string, seq<nat>>, labels: seq<string>): seq<nat> {
    if labels == [] then [] else Lookup(suffixes, JoinDots(labels)) + SuffixIds(suffixes, labels[1..])
  }

  lemma SuffixIdsStep(suffixes: map<string, seq<nat>>, labels: seq<string>, i: nat, before: seq<nat>)
    requires i < |labels|
    ensures before + SuffixIds(suffixes, labels[i..]) ==
      (before + Lookup(suffixes, JoinDots(labels[i..]))) + SuffixIds(suffixes, labels[i + 1..])
  {
    assert labels[i..][1..] == labels[i + 1..];
  }

  /** One look-up per label boundary finds every suffix entry at a boundary, once. */
  lemma {:induction false} SuffixIdsMean(entries: seq<Entry>, suffixes: map<string, seq<nat>>, labels: seq<string>)
    requires SuffixIndexed(entries, suffixes) && labels != []
    requires forall i :: 0 <= i < |labels| ==> NoDot(labels[i])
    ensures multiset(SuffixIds(suffixes, labels)) == IdsWhere(entries, AtLabelTest(labels))
  {
    var name := JoinDots(labels);
    if |labels| == 1 {
      forall e | e in entries
        ensures AtLabelTest(labels)(e) <==> SuffixTest(name)(e)
      {
        OnlyLabel(labels, e.value);
      }
      IdsAgree(entries, AtLabelTest(labels), SuffixTest(name));
      assert SuffixIds(suffixes, labels[1..]) == [];
    } else {
      SuffixIdsMean(entries, suffixes, labels[1..]);
      forall e | e in entries
        ensures AtLabelTest(labels)(e) <==> SuffixTest(name)(e) || AtLabelTest(labels[1..])(e)
        ensures !(SuffixTest(name)(e) && AtLabelTest(labels[1..])(e))
      {
        AtLabelStep(labels, e.value);
      }
      IdsSum(entries, SuffixTest(name), AtLabelTest(labels[1..]), AtLabelTest(labels));
    }
  }

  function HostTest(host: string): Entry -> bool {
    (e: Entry) => AllowsHost(e, host)
  }

  lemma HostSum(entries: seq<Entry>, host: string)
    ensures host == "" ==> IdsOf(entries, HostTest(host)) == IdsOf(entries, ExactTest(Key(DomainName, host)))
    ensures host != "" ==> (IdsWhere(entries, HostTest(host)) ==
      IdsWhere(entries, ExactTest(Key(DomainName, host))) + IdsWhere(entries, AtLabelTest(UrlNormal.Labels(host))))
  {
    LabelsJoin(host);
    if host == "" {
      IdsAgree(entries, HostTest(host), ExactTest(Key(DomainName, host)));
    } else {
      IdsSum(entries, ExactTest(Key(DomainName, host)), AtLabelTest(UrlNormal.Labels(host)), HostTest(host));
    }
  }

  // ── The loops ─────────────────────────────────────────────────────────

  /** Probes the index once per prefix length, in whatever order the dictionary yields them. */
  method ProbeAll(lib: TextLib, ghost entries: seq<Entry>, a: Address, index: PrefixIndex, start: seq<nat>)
    returns (matched: seq<nat>)
    requires NetworkLaws(lib) && BlocksIndexed(lib, entries, a.version, index) && PrefixesFit(a.version, index)
    requires multiset(start) == IdsWhere(entries, UpToTest(lib, a, {}))
    ensures multiset(matched) == IdsWhere(entries, UpToTest(lib, a, index.Keys))
  {
    matched := start;
    var rest := index.Keys;
    ghost var done: set<nat> := {};
    while rest != {}
      invariant done !! rest && done + rest == index.Keys
      invariant multiset(matched) == IdsWhere(entries, UpToTest(lib, a, done))
      decreases |rest|
    {
      var prefix :| prefix in rest;
      ProbeIndex(lib, entries, a, index, done, prefix);
      var base: nat := Masked(a.value, MaxPrefix(a.version) - prefix);
      matched := matched + Lookup(index[prefix], base);
      rest, done := rest - {prefix}, done + {prefix};
    }
    assert done == index.Keys;
  }

  method ScanAddresses(pairs: seq<(Address, nat)>, r: Network) returns (ids: seq<nat>)
    ensures ids == AddressesIn(pairs, r)
  {
    ids := [];
    for i := 0 to |pairs|
      invariant ids == AddressesIn(pairs[..i], r)
    {
      assert pairs[..i + 1][..i] == pairs[..i];
      if InBlock(pairs[i].0.value, r) {
        ids := ids + [pairs[i].1];
      }
    }
    assert pairs[..|pairs|] == pairs;
  }

  method ScanNetworks(pairs: seq<(Network, nat)>, r: Network) returns (ids: seq<nat>)
    ensures ids == NetworksOver(pairs, r)
  {
    ids := [];
    for i := 0 to |pairs|
      invariant ids == NetworksOver(pairs[..i], r)
    {
      assert pairs[..i + 1][..i] == pairs[..i];
      if BlocksOverlap(r, pairs[i].0) {
        ids := ids + [pairs[i].1];
      }
    }
    assert pairs[..|pairs|] == pairs;
  }

  // ── The class ─────────────────────────────────────────────────────────

  ghost function PolicyTest(lib: TextLib, typ: ObsType, value: string): Entry -> bool {
    (e: Entry) => Allows(lib, e, typ, value)
  }

  ghost function CoverTest(lib: TextLib, typ: ObsType, value: string): Entry -> bool {
    (e: Entry) => Covers(lib, e, typ, value)
  }

  lemma SamePolicy(lib: TextLib, entries: seq<Entry>, typ: ObsType, value: string)
    requires NetworkLaws(lib)
    ensures IdsWhere(entries, PolicyTest(lib, typ, value)) == IdsWhere(entries, CoverTest(lib, typ, value))
  {
    forall e | e in entries
      ensures PolicyTest(lib, typ, value)(e) <==> CoverTest(lib, typ, value)(e)
    {
      AllowsIffCovers(lib, e, typ, value);
    }
    IdsAgree(entries, PolicyTest(lib, typ, value), CoverTest(lib, typ, value));
  }

  class Matcher {
    var exact: map<Key, seq<nat>>
    var suffixes: map<string, seq<nat>>
    var networks: map<Version, seq<(Network, nat)>>
    var networkIndex: map<Version, PrefixIndex>
    var exactIps: map<Version, seq<(Address, nat)>>
    var empty: bool
    ghost var entries: seq<Entry>

    ghost predicate Valid(lib: TextLib)
      reads this
    {
      && (empty <==> entries == [])
      && HasTables() && Indexed(lib, entries, AllDicts())
    }

    ghost predicate HasTables()
      reads this
    {
      forall v: Version :: v in networks && v in networkIndex && v in exactIps
    }

    ghost function TablesAt(v: Version): Tables
      requires HasTables()
      reads this
    {
      Tables(networks[v], networkIndex[v], exactIps[v])
    }

    ghost function AllDicts(): Dicts
      requires HasTables()
      reads this
    {
      Dicts(exact, suffixes, TablesAt(V4), TablesAt(V6))
    }

    lemma TablesValid(lib: TextLib, v: Version)
      requires Valid(lib)
      ensures TablesFor(lib, entries, v, TablesAt(v))
    {
      match v
      case V4 =>
      case V6 =>
    }

    constructor (lib: TextLib, source: seq<Entry>)
      requires NetworkLaws(lib)
      ensures Valid(lib) && entries == source
    {
      exact, suffixes := map[], map[];
      networks := map[V4 := [], V6 := []];
      networkIndex := map[V4 := map[], V6 := map[]];
      exactIps := map[V4 := [], V6 := []];
      empty := true;
      entries := [];
      new;
      forall v: Version
        ensures v in networks && v in networkIndex && v in exactIps
      {
        match v
        case V4 =>
        case V6 =>
      }
      NothingIndexed(lib);
      for i := 0 to |source|
        invariant Valid(lib) && entries == source[..i]
      {
        Add(lib, source[i]);
      }
    }

    method Add(lib: TextLib, e: Entry)
      requires NetworkLaws(lib) && Valid(lib)
      modifies this
      ensures Valid(lib) && entries == old(entries) + [e]
    {
      ghost var d := AllDicts();
      IndexedStep(lib, entries, d, e);
      empty := false;
      entries := entries + [e];
      Store(lib, e);
      assert AllDicts() == AddTo(lib, d, e);
    }

    /** The dictionary writes for one entry. */
    method Store(lib: TextLib, e: Entry)
      requires HasTables()
      modifies `exact, `suffixes, `networks, `networkIndex, `exactIps
      ensures HasTables() && AllDicts() == AddTo(lib, old(AllDicts()), e)
    {
      match e.kind
      case Exact =>
        exact := AppendId(exact, Key(e.typ, e.value), e.id);
        if e.typ == IpAddr && lib.parseAddress(e.value).Some? {
          var a := lib.parseAddress(e.value).value;
          exactIps := exactIps[a.version := exactIps[a.version] + [(a, e.id)]];
        }
      case DomainSuffix =>
        suffixes := AppendId(suffixes, e.value, e.id);
      case Cidr =>
        var network := lib.parseNetwork(e.value);
        if network.Some? {
          var n := network.value;
          networks := networks[n.version := networks[n.version] + [(n, e.id)]];
          networkIndex := networkIndex[n.version := IndexAppend(networkIndex[n.version], n.prefixLength, n.base, e.id)];
        }
    }

    /** Every entry whose policy covers the observable is reported, once per entry, and no other. */
    method Match(lib: TextLib, typ: ObsType, value: string) returns (matched: seq<nat>)
      requires NetworkLaws(lib) && Valid(lib)
      ensures multiset(matched) == IdsWhere(entries, PolicyTest(lib, typ, value))
      ensures multiset(matched) == IdsWhere(entries, CoverTest(lib, typ, value))
    {
      SamePolicy(lib, entries, typ, value);
      if empty {
        return [];
      }
      match typ
      case IpAddr => matched := MatchIp(lib, value);
      case DomainName => matched := MatchDomain(lib, value);
      case _ =>
        matched := Lookup(exact, Key(typ, value));
        IdsAgree(entries, ExactTest(Key(typ, value)), PolicyTest(lib, typ, value));
    }

    method MatchIp(lib: TextLib, value: string) returns (matched: seq<nat>)
      requires NetworkLaws(lib) && Valid(lib)
      ensures multiset(matched) == IdsWhere(entries, PolicyTest(lib, IpAddr, value))
    {
      var text := Strip(lib, value);
      var address := lib.parseAddress(text);
      if address.Some? {
        matched := MatchAddress(lib, address.value);
        IdsAgree(entries, AddressTest(lib, address.value), PolicyTest(lib, IpAddr, value));
        return;
      }
      if '/' !in text || lib.parseNetwork(text).None? {
        IdsEmpty(entries, PolicyTest(lib, IpAddr, value));
        return [];
      }
      matched := MatchRange(lib, lib.parseNetwork(text).value);
      IdsAgree(entries, RangeTest(lib, lib.parseNetwork(text).value), PolicyTest(lib, IpAddr, value));
    }

    /** One probe per prefix length finds the exact entries and every block that contains the address. */
    method MatchAddress(lib: TextLib, a: Address) returns (matched: seq<nat>)
      requires NetworkLaws(lib) && Valid(lib)
      ensures multiset(matched) == IdsWhere(entries, AddressTest(lib, a))
    {
      matched := Lookup(exact, Key(IpAddr, lib.showAddress(a)));
      NothingProbed(lib, entries, a);
      var index := networkIndex[a.version];
      TablesValid(lib, a.version);
      matched := ProbeAll(lib, entries, a, index, matched);
      AllProbed(lib, entries, a, index);
    }

    method MatchRange(lib: TextLib, r: Network) returns (matched: seq<nat>)
      requires NetworkLaws(lib) && Valid(lib) && ValidNetwork(r)
      ensures multiset(matched) == IdsWhere(entries, RangeTest(lib, r))
    {
      TablesValid(lib, r.version);
      var covered := ScanAddresses(exactIps[r.version], r);
      var over := ScanNetworks(networks[r.version], r);
      matched := covered + over;
      AddressesInMeans(lib, entries, r);
      NetworksOverMeans(lib, entries, r);
      RangeSum(lib, entries, r);
    }

    method MatchDomain(lib: TextLib, value: string) returns (matched: seq<nat>)
      requires Valid(lib)
      ensures multiset(matched) == IdsWhere(entries, PolicyTest(lib, DomainName, value))
    {
      var host := NormalizeHostname(lib, value);
      matched := Lookup(exact, Key(DomainName, host));
      HostSum(entries, host);
      IdsAgree(entries, HostTest(host), PolicyTest(lib, DomainName, value));
      if suffixes != map[] && host != "" {
        var labels := UrlNormal.Labels(host);
        var below := MatchSuffixes(labels);
        matched := matched + below;
        LabelsJoin(host);
        SuffixIdsMean(entries, suffixes, labels);
      } else if host != "" {
        IdsEmpty(entries, AtLabelTest(UrlNormal.Labels(host)));
      }
    }

    method MatchSuffixes(labels: seq<string>) returns (matched: seq<nat>)
      ensures matched == SuffixIds(suffixes, labels)
    {
      matched := [];
      for i := 0 to |labels|
        invariant matched + SuffixIds(suffixes, labels[i..]) == SuffixIds(suffixes, labels)
      {
        SuffixIdsStep(suffixes, labels, i, matched);
        matched := matched + Lookup(suffixes, JoinDots(labels[i..]));
      }
    }

    /** An observable is allowlisted exactly when some entry allows it. */
    method IsAllowlisted(lib: TextLib, typ: ObsType, value: string) returns (r: bool)
      requires NetworkLaws(lib) && Valid(lib)
      ensures r <==> exists e :: e in entries && Allows(lib, e, typ, value)
    {
      var matched := Match(lib, typ, value);
      IdsEmpty(entries, PolicyTest(lib, typ, value));
      r := matched != [];
      if !r {
        assert IdsWhere(entries, PolicyTest(lib, typ, value)) == multiset{};
      }
      assert |matched| == |multiset(matched)| == |IdsOf(entries, PolicyTest(lib, typ, value))|;
    }

    /** The values no entry allows, in order. */
    method FilterValues(lib: TextLib, typ: ObsType, values: seq<string>) returns (kept: seq<string>)
      requires NetworkLaws(lib) && Valid(lib)
      ensures kept == Sorting.Filter(values, NotAllowed(lib, entries, typ))
    {
      ghost var test := NotAllowed(lib, entries, typ);
      if empty {
        FilterAll(values, test);
        return values;
      }
      kept := [];
      for i := 0 to |values|
        invariant kept == Sorting.Filter(values[..i], test)
      {
        var allowed := IsAllowlisted(lib, typ, values[i]);
        FilterStep(values, i, test);
        if !allowed {
          kept := kept + [values[i]];
        }
      }
      assert values[..|values|] == values;
    }
  }

  ghost function NotAllowed(lib: TextLib, entries: seq<Entry>, typ: ObsType): string -> bool {
    (value: string) => !exists e :: e in entries && Allows(lib, e, typ, value)
  }

  lemma FilterStep(values: seq<string>, i: nat, test: string -> bool)
    requires i < |values|
    ensures Sorting.Filter(values[..i + 1], test) ==
      Sorting.Filter(values[..i], test) + (if test(values[i]) then [values[i]] else [])
  {
    Sorting.FilterConcat(values[..i], [values[i]], test);
    assert values[..i] + [values[i]] == values[..i + 1];
  }

  lemma {:induction false} FilterAll(values: seq<string>, test: string -> bool)
    requires forall v :: v in values ==> test(v)
    ensures Sorting.Filter(values, test) == values
  {
    if values != [] {
      FilterAll(values[..|values| - 1], test);
      assert test(values[|values| - 1]);
    }
  }

  // ── What the look-ups guarantee together ──────────────────────────────

  /** A range is allowlisted exactly when some single address inside it is. */
  lemma RangeAllowlistedIff(lib: TextLib, entries: seq<Entry>, value: string)
    requires Laws(lib) && forall e :: e in entries ==> StoredForm(lib, e)
    requires var text := Strip(lib, value);
      lib.parseAddress(text).None? && '/' in text && lib.parseNetwork(text).Some?
    ensures IdsWhere(entries, PolicyTest(lib, IpAddr, value)) != multiset{} <==>
      exists single :: AddressWithin(lib, single, lib.parseNetwork(Strip(lib, value)).value) &&
        IdsWhere(entries, PolicyTest(lib, IpAddr, single)) != multiset{}
  {
    var r := lib.parseNetwork(Strip(lib, value)).value;
    SomeIdIff(entries, PolicyTest(lib, IpAddr, value));
    if e :| e in entries && PolicyTest(lib, IpAddr, value)(e) {
      RangeIffSomeAddress(lib, e, r);
      var single :| AddressWithin(lib, single, r) && Allows(lib, e, IpAddr, single);
      SomeIdIff(entries, PolicyTest(lib, IpAddr, single));
      assert PolicyTest(lib, IpAddr, single)(e);
    }
    if single :| AddressWithin(lib, single, r) && IdsWhere(entries, PolicyTest(lib, IpAddr, single)) != multiset{} {
      SomeIdIff(entries, PolicyTest(lib, IpAddr, single));
      var e :| e in entries && PolicyTest(lib, IpAddr, single)(e);
      RangeIffSomeAddress(lib, e, r);
      assert PolicyTest(lib, IpAddr, value)(e);
    }
  }

  lemma SomeIdIff(entries: seq<Entry>, test: Entry -> bool)
    ensures IdsWhere(entries, test) != multiset{} <==> exists e :: e in entries && test(e)
  {
    IdsEmpty(entries, test);
    assert |IdsWhere(entries, test)| == |IdsOf(entries, test)|;
  }

  /** x/32 (or x/128) and x report the same entries exactly when no exact entry names x under another scope. */
  lemma HostBlockAgreesIff(lib: TextLib, entries: seq<Entry>, a: Address, r: Network)
    requires Laws(lib) && forall e :: e in entries ==> StoredForm(lib, e)
    requires ValidNetwork(r) && IsHostBlock(r, a) && PrintsBack(lib, a)
    ensures IdsWhere(entries, RangeTest(lib, r)) == IdsWhere(entries, AddressTest(lib, a)) <==>
      forall e :: e in entries ==> !OtherScope(lib, e, a)
  {
    var other := (e: Entry) => OtherScope(lib, e, a);
    forall e | e in entries
      ensures AllowsRange(lib, e, r) <==> AllowsAddress(lib, e, a) || other(e)
      ensures !(AllowsAddress(lib, e, a) && other(e))
    {
      HostBlockIff(lib, e, a, r);
    }
    IdsSum(entries, AddressTest(lib, a), other, RangeTest(lib, r));
    SomeIdIff(entries, other);
    MultisetPlus(IdsWhere(entries, AddressTest(lib, a)), IdsWhere(entries, other));
  }

  lemma MultisetPlus(a: multiset<nat>, b: multiset<nat>)
    ensures a + b == a <==> b == multiset{}
  {
    if a + b == a {
      assert |a + b| == |a| + |b|;
    }
  }

  /** An IPv4 address has no scope, so x/32 and x always agree. */
  lemma Ipv4HostBlockAgrees(lib: TextLib, entries: seq<Entry>, a: Address, r: Network)
    requires Laws(lib) && forall e :: e in entries ==> StoredForm(lib, e)
    requires forall t :: lib.parseAddress(t).Some? && lib.parseAddress(t).value.version == V4 ==> lib.parseAddress(t).value.scope.None?
    requires ValidNetwork(r) && IsHostBlock(r, a) && PrintsBack(lib, a) && a.version == V4
    ensures IdsWhere(entries, RangeTest(lib, r)) == IdsWhere(entries, AddressTest(lib, a))
  {
    HostBlockAgreesIff(lib, entries, a, r);
  }
}
