/** The export pipelines: blocklist with a cache, streamed values with exclusion counts, and the limited JSON export. */
module Exports {
  import opened Wrappers
  import opened Observables
  import opened StringOrder
  import T = Tlp
  import Sorting

  const BATCH_SIZE := 500

  /** One observable row with what the export queries join to it. */
  datatype Row = Row(
    id: nat, typ: ObsType, value: string, confidence: int, lastSeen: int, feeds: set<nat>, tags: set<string>, tlp: T.Observable)

  datatype Query = Query(obsType: Option<ObsType>, confidenceMin: int, cutoff: Option<int>, feedId: Option<nat>, tags: set<string>)

  /** The allowlist as the matcher answers it, where the values go, and whether they are written one per line. */
  datatype Policy = Policy(allowlisted: (ObsType, string) -> bool, destination: string, lineSafe: bool)

  predicate Matches(q: Query, r: Row) {
    && r.confidence >= q.confidenceMin
    && (q.tags != {} ==> q.tags * r.tags != {})
    && (q.obsType.Some? ==> r.typ == q.obsType.value)
    && (q.cutoff.Some? ==> r.lastSeen >= q.cutoff.value)
    && (q.feedId.Some? ==> q.feedId.value in r.feeds)
  }

  predicate LineUnsafe(c: char) {
    var code := c as int;
    code <= 0x1f || 0x7f <= code <= 0x9f || code == 0x2028 || code == 0x2029
  }

  predicate IsLineSafe(value: string) {
    forall i :: 0 <= i < |value| ==> !LineUnsafe(value[i])
  }

  predicate Shareable(p: Policy, r: Row) {
    T.ShareableClause(T.EffectiveSql(r.tlp), p.destination)
  }

  predicate Considered(p: Policy, r: Row) {
    p.lineSafe ==> IsLineSafe(r.value)
  }

  predicate Suppressed(p: Policy, r: Row) {
    Considered(p, r) && p.allowlisted(r.typ, r.value)
  }

  predicate Passes(p: Policy, r: Row) {
    Considered(p, r) && !p.allowlisted(r.typ, r.value)
  }

  function MatchTest(q: Query): Row -> bool {
    (r: Row) => Matches(q, r)
  }

  function SharedTest(q: Query, p: Policy): Row -> bool {
    (r: Row) => Matches(q, r) && Shareable(p, r)
  }

  function WithheldTest(q: Query, p: Policy): Row -> bool {
    (r: Row) => Matches(q, r) && !Shareable(p, r)
  }

  function PassTest(p: Policy): Row -> bool {
    (r: Row) => Passes(p, r)
  }

  function SuppressTest(p: Policy): Row -> bool {
    (r: Row) => Suppressed(p, r)
  }

  function MarkTest(p: Policy, t: T.Input): Row -> bool {
    (r: Row) => Passes(p, r) && T.Effective(r.tlp) == t
  }

  function ConsideredTest(q: Query, p: Policy): Row -> bool {
    (r: Row) => Matches(q, r) && Considered(p, r)
  }

  /** The primary key and the (type, value) unique key. */
  ghost predicate ValidTable(table: seq<Row>) {
    forall i, j :: 0 <= i < j < |table| ==>
      table[i].id != table[j].id && (table[i].typ != table[j].typ || table[i].value != table[j].value)
  }

  // ── Orders ────────────────────────────────────────────────────────────

  predicate ValueLe(a: Row, b: Row) {
    StringLess(a.value, b.value) || (a.value == b.value && a.id <= b.id)
  }

  predicate RecentLe(a: Row, b: Row) {
    a.lastSeen > b.lastSeen || (a.lastSeen == b.lastSeen && a.id <= b.id)
  }

  datatype Order = ByRecent | ByValue

  function RowLe(order: Order): (Row, Row) -> bool {
    match order
    case ByRecent => RecentLe
    case ByValue => ValueLe
  }

  lemma RowLeTotal(order: Order)
    ensures Sorting.Total(RowLe(order))
  {
    if order == ByValue {
      forall a, b
        ensures ValueLe(a, b) || ValueLe(b, a)
      {
        StringLessTotal(a.value, b.value);
      }
      forall a, b, c | ValueLe(a, b) && ValueLe(b, c)
        ensures ValueLe(a, c)
      {
        StringLessTotal(a.value, b.value);
        if StringLess(a.value, b.value) && StringLess(b.value, c.value) {
          StringLessTransitive(a.value, b.value, c.value);
        }
      }
    }
  }

  /** SELECT … WHERE … ORDER BY. */
  function Select(table: seq<Row>, where: Row -> bool, order: Order): seq<Row> {
    Sorting.Sort(Sorting.Filter(table, where), RowLe(order))
  }

  lemma SelectMembers(table: seq<Row>, where: Row -> bool, order: Order)
    ensures forall r :: r in Select(table, where, order) <==> r in table && where(r)
    ensures Sorting.Sorted(Select(table, where, order), RowLe(order))
  {
    RowLeTotal(order);
    Sorting.SortMembers(Sorting.Filter(table, where), RowLe(order));
    Sorting.SortSpec(Sorting.Filter(table, where), RowLe(order));
    Sorting.FilterMembers(table, where);
  }

  // ── Counting ──────────────────────────────────────────────────────────

  function Count(s: seq<Row>, p: Row -> bool): nat {
    |Sorting.Filter(s, p)|
  }

  lemma SameCount(a: seq<Row>, b: seq<Row>, p: Row -> bool)
    requires multiset(a) == multiset(b)
    ensures Count(a, p) == Count(b, p)
  {
    forall x
      ensures multiset(Sorting.Filter(a, p))[x] == multiset(Sorting.Filter(b, p))[x]
    {
      Sorting.FilterMultiset(a, p, x);
      Sorting.FilterMultiset(b, p, x);
    }
    assert multiset(Sorting.Filter(a, p)) == multiset(Sorting.Filter(b, p));
    assert |multiset(Sorting.Filter(a, p))| == Count(a, p) && |multiset(Sorting.Filter(b, p))| == Count(b, p);
  }

  /** Filtering the selected rows again gives the rows that meet both conditions. */
  lemma SelectCount(table: seq<Row>, where: Row -> bool, order: Order, p: Row -> bool, both: Row -> bool)
    requires forall r :: both(r) <==> where(r) && p(r)
    ensures Count(Select(table, where, order), p) == Count(table, both)
  {
    RowLeTotal(order);
    Sorting.SortSpec(Sorting.Filter(table, where), RowLe(order));
    SameCount(Select(table, where, order), Sorting.Filter(table, where), p);
    FilterTwice(table, where, p, both);
  }

  lemma {:induction false} FilterTwice(s: seq<Row>, p: Row -> bool, q: Row -> bool, both: Row -> bool)
    requires forall r :: both(r) <==> p(r) && q(r)
    ensures Sorting.Filter(Sorting.Filter(s, p), q) == Sorting.Filter(s, both)
  {
    if s != [] {
      var front, last := s[..|s| - 1], s[|s| - 1];
      FilterTwice(front, p, q, both);
      Sorting.FilterConcat(Sorting.Filter(front, p), if p(last) then [last] else [], q);
      FilterOne(last, q);
    }
  }

  lemma FilterOne(r: Row, q: Row -> bool)
    ensures Sorting.Filter([r], q) == if q(r) then [r] else []
    ensures Sorting.Filter([], q) == []
  {
    assert [r][..0] == [];
  }

  lemma {:induction false} CountSplit(s: seq<Row>, p: Row -> bool, a: Row -> bool, b: Row -> bool)
    requires forall r :: !(a(r) && b(r)) && (p(r) <==> a(r) || b(r))
    ensures Count(s, p) == Count(s, a) + Count(s, b)
  {
    if s != [] {
      CountSplit(s[..|s| - 1], p, a, b);
    }
  }

  lemma CountStep(s: seq<Row>, i: nat, p: Row -> bool)
    requires i < |s|
    ensures p(s[i]) ==> Sorting.Filter(s[..i + 1], p) == Sorting.Filter(s[..i], p) + [s[i]]
    ensures !p(s[i]) ==> Sorting.Filter(s[..i + 1], p) == Sorting.Filter(s[..i], p)
    ensures Count(s[..i + 1], p) == Count(s[..i], p) + (if p(s[i]) then 1 else 0)
  {
    assert s[..i + 1][..i] == s[..i];
  }

  // ── Values ────────────────────────────────────────────────────────────

  function Values(rows: seq<Row>): (values: seq<string>)
    ensures |values| == |rows|
    ensures forall i :: 0 <= i < |rows| ==> values[i] == rows[i].value
  {
    if rows == [] then [] else Values(rows[..|rows| - 1]) + [rows[|rows| - 1].value]
  }

  lemma ValuesMembers(rows: seq<Row>)
    ensures forall v :: v in Values(rows) <==> exists r :: r in rows && r.value == v
  {
    forall r | r in rows
      ensures r.value in Values(rows)
    {
      var i :| 0 <= i < |rows| && rows[i] == r;
      assert Values(rows)[i] == r.value;
    }
    forall v | v in Values(rows)
      ensures exists r :: r in rows && r.value == v
    {
      var i :| 0 <= i < |rows| && Values(rows)[i] == v;
      assert rows[i] in rows;
    }
  }

  /** `list(dict.fromkeys(values))`: the first occurrence of each value. */
  function Dedup(values: seq<string>): seq<string> {
    if values == [] then []
    else
      var front := Dedup(values[..|values| - 1]);
      if values[|values| - 1] in front then front else front + [values[|values| - 1]]
  }

  lemma {:induction false} DedupSpec(values: seq<string>)
    ensures Sorting.Distinct(Dedup(values))
    ensures forall v :: v in Dedup(values) <==> v in values
  {
    if values != [] {
      DedupSpec(values[..|values| - 1]);
      assert values == values[..|values| - 1] + [values[|values| - 1]];
    }
  }

  lemma {:induction false} DedupSorted(values: seq<string>)
    requires Sorting.Sorted(values, StringLe)
    ensures Sorting.Sorted(Dedup(values), StringLe)
  {
    if values != [] {
      var front, last := values[..|values| - 1], values[|values| - 1];
      DedupSorted(front);
      DedupSpec(front);
      forall v | v in Dedup(front)
        ensures StringLe(v, last)
      {
        var i :| 0 <= i < |front| && front[i] == v;
        assert StringLe(values[i], last);
      }
    }
  }

  function Finish(order: Order, values: seq<string>): seq<string> {
    if order == ByValue then Dedup(values) else values
  }

  ghost predicate SeenIs(order: Order, seen: set<string>, values: seq<string>) {
    order == ByValue ==> forall v :: v in seen <==> v in values
  }

  /** One row of the stream. */
  method CollectOne(p: Policy, order: Order, row: Row, values0: seq<string>, excluded0: nat, seen0: set<string>)
    returns (values: seq<string>, excluded: nat, seen: set<string>)
    requires SeenIs(order, seen0, values0)
    ensures SeenIs(order, seen, values)
    ensures excluded == excluded0 + (if Suppressed(p, row) then 1 else 0)
    ensures values == if Passes(p, row) && !(order == ByValue && row.value in values0) then values0 + [row.value] else values0
  {
    values, excluded, seen := values0, excluded0, seen0;
    if p.lineSafe && !IsLineSafe(row.value) {
      return;
    }
    if p.allowlisted(row.typ, row.value) {
      excluded := excluded + 1;
      return;
    }
    if order == ByValue {
      if row.value in seen {
        return;
      }
      seen := seen + {row.value};
    }
    values := values + [row.value];
  }

  function Passed(p: Policy, order: Order, rows: seq<Row>): seq<string> {
    Finish(order, Values(Sorting.Filter(rows, PassTest(p))))
  }

  lemma PassedStep(p: Policy, order: Order, rows: seq<Row>, i: nat)
    requires i < |rows|
    ensures var before := Passed(p, order, rows[..i]);
      Passed(p, order, rows[..i + 1]) ==
      if Passes(p, rows[i]) && !(order == ByValue && rows[i].value in before) then before + [rows[i].value] else before
  {
    CountStep(rows, i, PassTest(p));
    var kept := Sorting.Filter(rows[..i], PassTest(p));
    assert PassTest(p)(rows[i]) == Passes(p, rows[i]);
    FinishStep(order, kept, rows[i]);
  }

  lemma FinishStep(order: Order, kept: seq<Row>, r: Row)
    ensures var before := Finish(order, Values(kept));
      Finish(order, Values(kept + [r])) == if order == ByValue && r.value in before then before else before + [r.value]
  {
    ValuesStep(kept, r);
  }

  /** The streaming loop: the values that pass, and how many rows the allowlist suppressed. */
  method CollectValues(p: Policy, order: Order, rows: seq<Row>) returns (values: seq<string>, excluded: nat)
    ensures values == Passed(p, order, rows)
    ensures excluded == Count(rows, SuppressTest(p))
  {
    values, excluded := [], 0;
    var seen: set<string> := {};
    for i := 0 to |rows|
      invariant values == Passed(p, order, rows[..i]) && SeenIs(order, seen, values)
      invariant excluded == Count(rows[..i], SuppressTest(p))
    {
      CountStep(rows, i, SuppressTest(p));
      PassedStep(p, order, rows, i);
      values, excluded, seen := CollectOne(p, order, rows[i], values, excluded, seen);
    }
    assert rows[..|rows|] == rows;
  }

  lemma ValuesStep(rows: seq<Row>, r: Row)
    ensures Values(rows + [r]) == Values(rows) + [r.value]
    ensures Dedup(Values(rows + [r])) ==
      if r.value in Dedup(Values(rows)) then Dedup(Values(rows)) else Dedup(Values(rows)) + [r.value]
  {
    assert (rows + [r])[..|rows|] == rows;
    assert Values(rows + [r])[..|rows|] == Values(rows);
  }

  // ── Counting what is withheld ─────────────────────────────────────────

  function MarkingKeys(): set<string> {
    {T.MarkingKey(None), T.MarkingKey(Some(T.Clear)), T.MarkingKey(Some(T.Green)), T.MarkingKey(Some(T.Amber)),
     T.MarkingKey(Some(T.AmberStrict)), T.MarkingKey(Some(T.Red))}
  }

  lemma MarkingKeyListed(t: T.Input)
    ensures T.MarkingKey(t) in MarkingKeys()
  {
  }

  ghost predicate CountsByMarking(p: Policy, rows: seq<Row>, byMarking: map<string, nat>) {
    forall t: T.Input :: T.MarkingKey(t) in byMarking && byMarking[T.MarkingKey(t)] == Count(rows, MarkTest(p, t))
  }

  function TokenOf(marking: Option<string>): string {
    if marking.None? then T.UNSPECIFIED else marking.value
  }

  lemma TokenOfEffective(r: Row)
    ensures TokenOf(T.EffectiveSql(r.tlp)) == T.MarkingKey(T.Effective(r.tlp))
  {
    T.EffectiveSqlIsJoin(r.tlp);
  }

  lemma CountsStep(p: Policy, rows: seq<Row>, i: nat, byMarking: map<string, nat>)
    requires i < |rows| && CountsByMarking(p, rows[..i], byMarking)
    ensures !Passes(p, rows[i]) ==> CountsByMarking(p, rows[..i + 1], byMarking)
    ensures var key := T.MarkingKey(T.Effective(rows[i].tlp));
      key in byMarking && (Passes(p, rows[i]) ==> CountsByMarking(p, rows[..i + 1], byMarking[key := byMarking[key] + 1]))
  {
    var e := T.Effective(rows[i].tlp);
    forall t: T.Input
      ensures Count(rows[..i + 1], MarkTest(p, t)) ==
        Count(rows[..i], MarkTest(p, t)) + (if Passes(p, rows[i]) && e == t then 1 else 0)
      ensures T.MarkingKey(t) == T.MarkingKey(e) <==> t == e
    {
      CountStep(rows, i, MarkTest(p, t));
      if T.MarkingKey(t) == T.MarkingKey(e) {
        T.MarkingKeyInjective(t, e);
      }
    }
  }

  method WithheldCounts(p: Policy, rows: seq<Row>) returns (allowlisted: nat, byMarking: map<string, nat>)
    ensures allowlisted == Count(rows, SuppressTest(p))
    ensures byMarking.Keys == MarkingKeys() && CountsByMarking(p, rows, byMarking)
  {
    allowlisted, byMarking := 0, map k | k in MarkingKeys() :: 0;
    NoneCounted(p, byMarking);
    assert rows[..0] == [];
    for i := 0 to |rows|
      invariant allowlisted == Count(rows[..i], SuppressTest(p))
      invariant byMarking.Keys == MarkingKeys() && CountsByMarking(p, rows[..i], byMarking)
    {
      CountStep(rows, i, SuppressTest(p));
      CountsStep(p, rows, i, byMarking);
      var row := rows[i];
      if p.lineSafe && !IsLineSafe(row.value) {
        continue;
      }
      if p.allowlisted(row.typ, row.value) {
        allowlisted := allowlisted + 1;
        continue;
      }
      TokenOfEffective(row);
      var key := TokenOf(T.EffectiveSql(row.tlp));
      MarkingKeyListed(T.Effective(row.tlp));
      byMarking := byMarking[key := byMarking[key] + 1];
    }
    assert rows[..|rows|] == rows;
  }

  lemma NoneCounted(p: Policy, byMarking: map<string, nat>)
    requires byMarking.Keys == MarkingKeys() && forall k :: k in byMarking ==> byMarking[k] == 0
    ensures CountsByMarking(p, [], byMarking)
  {
    forall t: T.Input
      ensures T.MarkingKey(t) in byMarking && byMarking[T.MarkingKey(t)] == Count([], MarkTest(p, t))
    {
      MarkingKeyListed(t);
    }
  }

  function TotalWithheld(m: map<string, nat>): nat
    requires m.Keys == MarkingKeys()
  {
    m[T.MarkingKey(None)] + m[T.MarkingKey(Some(T.Clear))] + m[T.MarkingKey(Some(T.Green))] + m[T.MarkingKey(Some(T.Amber))] +
    m[T.MarkingKey(Some(T.AmberStrict))] + m[T.MarkingKey(Some(T.Red))]
  }

  /** Every row that passes has one effective marking. */
  lemma {:induction false} MarkingsPartition(p: Policy, rows: seq<Row>)
    ensures Count(rows, PassTest(p)) ==
      Count(rows, MarkTest(p, None)) + Count(rows, MarkTest(p, Some(T.Clear))) + Count(rows, MarkTest(p, Some(T.Green))) +
      Count(rows, MarkTest(p, Some(T.Amber))) + Count(rows, MarkTest(p, Some(T.AmberStrict))) + Count(rows, MarkTest(p, Some(T.Red)))
  {
    if rows != [] {
      var front, last := rows[..|rows| - 1], rows[|rows| - 1];
      MarkingsPartition(p, front);
      var e := T.Effective(last.tlp);
      forall t: T.Input
        ensures Count(rows, MarkTest(p, t)) == Count(front, MarkTest(p, t)) + (if Passes(p, last) && e == t then 1 else 0)
      {
      }
      assert Count(rows, PassTest(p)) == Count(front, PassTest(p)) + (if Passes(p, last) then 1 else 0);
      match e
      case None =>
      case Some(m) =>
        match m
        case Clear =>
        case Green =>
        case Amber =>
        case AmberStrict =>
        case Red =>
    }
  }

  // ── Streamed values ───────────────────────────────────────────────────

  /** The rows a profile may serve. */
  predicate Exportable(q: Query, p: Policy, r: Row) {
    Matches(q, r) && Shareable(p, r) && Passes(p, r)
  }

  function ExportTest(q: Query, p: Policy): Row -> bool {
    (r: Row) => Exportable(q, p, r)
  }

  function ExcludedTest(q: Query, p: Policy): Row -> bool {
    (r: Row) => Matches(q, r) && Suppressed(p, r)
  }

  function HeldTest(q: Query, p: Policy): Row -> bool {
    (r: Row) => Matches(q, r) && !Shareable(p, r) && Passes(p, r)
  }

  function HeldMarkTest(q: Query, p: Policy, t: T.Input): Row -> bool {
    (r: Row) => Matches(q, r) && !Shareable(p, r) && Passes(p, r) && T.Effective(r.tlp) == t
  }

  function Exported(table: seq<Row>, q: Query, p: Policy, order: Order): seq<string> {
    Passed(p, order, Select(table, SharedTest(q, p), order))
  }

  lemma ExportedMembers(table: seq<Row>, q: Query, p: Policy, order: Order)
    ensures forall v :: v in Exported(table, q, p, order) <==> exists r :: r in table && Exportable(q, p, r) && r.value == v
  {
    var rows := Sorting.Filter(Select(table, SharedTest(q, p), order), PassTest(p));
    SelectMembers(table, SharedTest(q, p), order);
    Sorting.FilterMembers(Select(table, SharedTest(q, p), order), PassTest(p));
    DedupSpec(Values(rows));
    ValuesMembers(rows);
    assert forall r :: r in rows <==> r in table && Exportable(q, p, r);
  }

  /** Each considered row is exported, suppressed or held back under its marking, and counted once. */
  lemma Conservation(table: seq<Row>, q: Query, p: Policy)
    ensures Count(table, ConsideredTest(q, p)) ==
      Count(table, ExportTest(q, p)) + Count(table, ExcludedTest(q, p)) + Count(table, HeldTest(q, p))
  {
    var shown := (r: Row) => Exportable(q, p, r) || (Matches(q, r) && Suppressed(p, r));
    CountSplit(table, ConsideredTest(q, p), shown, HeldTest(q, p));
    CountSplit(table, shown, ExportTest(q, p), ExcludedTest(q, p));
  }

  lemma ExcludedSplit(table: seq<Row>, q: Query, p: Policy, order: Order, withheld: Order)
    ensures Count(Select(table, SharedTest(q, p), order), SuppressTest(p)) +
      Count(Select(table, WithheldTest(q, p), withheld), SuppressTest(p)) == Count(table, ExcludedTest(q, p))
  {
    var a := (r: Row) => Matches(q, r) && Shareable(p, r) && Suppressed(p, r);
    var b := (r: Row) => Matches(q, r) && !Shareable(p, r) && Suppressed(p, r);
    SelectCount(table, SharedTest(q, p), order, SuppressTest(p), a);
    SelectCount(table, WithheldTest(q, p), withheld, SuppressTest(p), b);
    CountSplit(table, ExcludedTest(q, p), a, b);
  }

  /** The value of a row that meets every filter, is not allowlisted, and has one of these markings. */
  ghost predicate Released(table: seq<Row>, q: Query, p: Policy, markings: set<T.Input>, v: string) {
    exists r :: r in table && r.value == v && IsReleased(q, p, markings, r)
  }

  /** The row meets every filter of the query, and its value can be written on one line where values are written one per line. */
  predicate Meets(q: Query, p: Policy, r: Row) {
    && r.confidence >= q.confidenceMin
    && (q.obsType == None || q.obsType == Some(r.typ))
    && (q.cutoff == None || q.cutoff.value <= r.lastSeen)
    && (q.feedId == None || q.feedId.value in r.feeds)
    && (q.tags == {} || exists t :: t in q.tags && t in r.tags)
    && (p.lineSafe ==> forall c :: c in r.value ==> ' ' <= c <= '~' || ('\U{00A0}' <= c && c != '\U{2028}' && c != '\U{2029}'))
  }

  predicate IsReleased(q: Query, p: Policy, markings: set<T.Input>, r: Row) {
    Meets(q, p, r) && !p.allowlisted(r.typ, r.value) && T.Effective(r.tlp) in markings
  }

  /** The row is left out because the allowlist names its value. */
  predicate IsSuppressed(q: Query, p: Policy, r: Row) {
    Meets(q, p, r) && p.allowlisted(r.typ, r.value)
  }

  /** The row is left out for its marking alone. */
  predicate IsHeldBack(q: Query, p: Policy, t: T.Input, r: Row) {
    Meets(q, p, r) && !p.allowlisted(r.typ, r.value) && T.Effective(r.tlp) == t && t !in Receives(p.destination)
  }

  lemma {:induction false} CountIs(s: seq<Row>, p: Row -> bool)
    ensures Count(s, p) == |set i: nat | i < |s| && p(s[i])|
  {
    if s != [] {
      var n: nat := |s| - 1;
      CountIs(s[..n], p);
      var before := set i: nat | i < n && p(s[..n][i]);
      var all := set i: nat | i < |s| && p(s[i]);
      assert all == before + (if p(s[n]) then {n} else {});
    }
  }

  lemma SameSize(s: seq<Row>, p: Row -> bool, places: set<nat>)
    requires forall i: nat :: i in places <==> i < |s| && p(s[i])
    ensures Count(s, p) == |places|
  {
    CountIs(s, p);
    assert places == set i: nat | i < |s| && p(s[i]);
  }

  /** What is left out is counted by its cause. */
  ghost predicate ExclusionsAre(table: seq<Row>, q: Query, p: Policy, excluded: nat, byMarking: map<string, nat>) {
    && excluded == |set i: nat | i < |table| && IsSuppressed(q, p, table[i])|
    && byMarking.Keys == {"unspecified", "clear", "green", "amber", "amber+strict", "red"}
    && HeldIs(table, q, p, None, "unspecified", byMarking)
    && HeldIs(table, q, p, Some(T.Clear), "clear", byMarking) && HeldIs(table, q, p, Some(T.Green), "green", byMarking)
    && HeldIs(table, q, p, Some(T.Amber), "amber", byMarking)
    && HeldIs(table, q, p, Some(T.AmberStrict), "amber+strict", byMarking) && HeldIs(table, q, p, Some(T.Red), "red", byMarking)
  }

  ghost predicate HeldIs(table: seq<Row>, q: Query, p: Policy, t: T.Input, name: string, byMarking: map<string, nat>) {
    name in byMarking && byMarking[name] == |set i: nat | i < |table| && IsHeldBack(q, p, t, table[i])|
  }

  lemma MeetsIff(q: Query, p: Policy, r: Row)
    ensures Meets(q, p, r) <==> Matches(q, r) && Considered(p, r)
  {
    TagsMeet(q.tags, r.tags);
    SafeChars(r.value);
  }

  lemma HeldCount(table: seq<Row>, q: Query, p: Policy, t: T.Input)
    ensures Count(table, HeldMarkTest(q, p, t)) == |set i: nat | i < |table| && IsHeldBack(q, p, t, table[i])|
  {
    forall r
      ensures HeldMarkTest(q, p, t)(r) <==> IsHeldBack(q, p, t, r)
    {
      MeetsIff(q, p, r);
      ShareableExact(p, r);
    }
    SameSize(table, HeldMarkTest(q, p, t), set i: nat | i < |table| && IsHeldBack(q, p, t, table[i]));
  }

  lemma SuppressedCount(table: seq<Row>, q: Query, p: Policy)
    ensures Count(table, ExcludedTest(q, p)) == |set i: nat | i < |table| && IsSuppressed(q, p, table[i])|
  {
    forall r
      ensures ExcludedTest(q, p)(r) <==> IsSuppressed(q, p, r)
    {
      MeetsIff(q, p, r);
    }
    SameSize(table, ExcludedTest(q, p), set i: nat | i < |table| && IsSuppressed(q, p, table[i]));
  }

  lemma ExclusionsExact(table: seq<Row>, q: Query, p: Policy, excluded: nat, byMarking: map<string, nat>)
    requires excluded == Count(table, ExcludedTest(q, p)) && byMarking.Keys == MarkingKeys()
    requires forall t: T.Input :: T.MarkingKey(t) in byMarking && byMarking[T.MarkingKey(t)] == Count(table, HeldMarkTest(q, p, t))
    ensures ExclusionsAre(table, q, p, excluded, byMarking)
  {
    SuppressedCount(table, q, p);
    forall t
      ensures HeldIs(table, q, p, t, T.MarkingKey(t), byMarking)
    {
      HeldCount(table, q, p, t);
    }
    KeyNames();
    assert HeldIs(table, q, p, None, T.MarkingKey(None), byMarking);
    assert HeldIs(table, q, p, Some(T.Clear), T.MarkingKey(Some(T.Clear)), byMarking);
    assert HeldIs(table, q, p, Some(T.Green), T.MarkingKey(Some(T.Green)), byMarking);
    assert HeldIs(table, q, p, Some(T.Amber), T.MarkingKey(Some(T.Amber)), byMarking);
    assert HeldIs(table, q, p, Some(T.AmberStrict), T.MarkingKey(Some(T.AmberStrict)), byMarking);
    assert HeldIs(table, q, p, Some(T.Red), T.MarkingKey(Some(T.Red)), byMarking);
  }

  lemma KeyNames()
    ensures T.MarkingKey(None) == "unspecified" && T.MarkingKey(Some(T.Clear)) == "clear"
    ensures T.MarkingKey(Some(T.Green)) == "green" && T.MarkingKey(Some(T.Amber)) == "amber"
    ensures T.MarkingKey(Some(T.AmberStrict)) == "amber+strict" && T.MarkingKey(Some(T.Red)) == "red"
    ensures MarkingKeys() == {"unspecified", "clear", "green", "amber", "amber+strict", "red"}
  {
  }

  // ── The order of what is exported ─────────────────────────────────────

  /** Seen later, or seen at the same time under a smaller id. */
  predicate IsNewer(a: Row, b: Row) {
    b.lastSeen < a.lastSeen || (b.lastSeen == a.lastSeen && a.id <= b.id)
  }

  /** The values of rows, newest first. */
  ghost predicate FromNewest(table: seq<Row>, values: seq<string>) {
    exists rows :: AreNewest(table, rows, values)
  }

  ghost predicate AreNewest(table: seq<Row>, rows: seq<Row>, values: seq<string>) {
    && |rows| == |values| && (forall i :: 0 <= i < |rows| ==> rows[i] in table && rows[i].value == values[i])
    && forall i, j :: 0 <= i < j < |rows| ==> IsNewer(rows[i], rows[j])
  }

  /** Each value once, smaller ones first, as they compare at their first difference. */
  ghost predicate InValueOrder(values: seq<string>) {
    forall i, j :: 0 <= i < j < |values| ==> IsSmaller(values[i], values[j])
  }

  ghost predicate IsSmaller(a: string, b: string) {
    exists n: nat :: DiffersBelowAt(a, b, n)
  }

  ghost predicate InOrder(table: seq<Row>, order: Order, values: seq<string>) {
    match order
    case ByRecent => FromNewest(table, values)
    case ByValue => InValueOrder(values)
  }

  lemma DistinctInOrder(values: seq<string>)
    requires Sorting.Sorted(values, StringLe) && Sorting.Distinct(values)
    ensures InValueOrder(values)
  {
    forall i, j | 0 <= i < j < |values|
      ensures IsSmaller(values[i], values[j])
    {
      assert StringLe(values[i], values[j]) && values[i] != values[j];
      StringLessTotal(values[i], values[j]);
      StringLessIff(values[i], values[j]);
    }
  }

  lemma ExportedOrder(table: seq<Row>, q: Query, p: Policy, order: Order)
    ensures InOrder(table, order, Exported(table, q, p, order))
  {
    var selected := Select(table, SharedTest(q, p), order);
    var rows := Sorting.Filter(selected, PassTest(p));
    SelectMembers(table, SharedTest(q, p), order);
    Sorting.FilterMembers(selected, PassTest(p));
    Sorting.FilterSorted(selected, PassTest(p), RowLe(order));
    if order == ByValue {
      ExportedSorted(table, q, p);
      DistinctInOrder(Exported(table, q, p, order));
    } else {
      NewestRows(table, rows);
    }
  }

  lemma NewestRows(table: seq<Row>, rows: seq<Row>)
    requires Sorting.Sorted(rows, RecentLe) && forall r :: r in rows ==> r in table
    ensures FromNewest(table, Values(rows))
  {
    forall i, j | 0 <= i < j < |rows|
      ensures IsNewer(rows[i], rows[j])
    {
      assert RecentLe(rows[i], rows[j]);
    }
    assert AreNewest(table, rows, Values(rows));
  }

  /** The markings a destination receives. */
  function Receives(destination: string): set<T.Input> {
    if destination == "public" then {Some(T.Clear)}
    else if destination == "community" || destination == "external_ai" then {Some(T.Clear), Some(T.Green)}
    else if destination == "internal" then {None, Some(T.Clear), Some(T.Green), Some(T.Amber), Some(T.AmberStrict)}
    else {}
  }

  lemma ReleasedIffExportable(q: Query, p: Policy, r: Row)
    ensures Exportable(q, p, r) <==> IsReleased(q, p, Receives(p.destination), r)
  {
    ShareableExact(p, r);
    TagsMeet(q.tags, r.tags);
    SafeChars(r.value);
  }

  lemma ShareableExact(p: Policy, r: Row)
    ensures Shareable(p, r) <==> T.Effective(r.tlp) in Receives(p.destination)
  {
    ShareableIffMayLeave(p, r);
    T.DestinationsExact(r.tlp, p.destination);
    ReceivesExact(T.Effective(r.tlp), p.destination);
  }

  lemma ReceivesExact(t: T.Input, destination: string)
    ensures destination == "public" ==> (t in Receives(destination) <==> t == Some(T.Clear))
    ensures destination == "community" || destination == "external_ai" ==>
      (t in Receives(destination) <==> t == Some(T.Clear) || t == Some(T.Green))
    ensures destination == "internal" ==> (t in Receives(destination) <==> t != Some(T.Red))
    ensures destination !in {"public", "community", "external_ai", "internal"} ==> t !in Receives(destination)
  {
    T.EveryInput(t);
  }

  lemma ExportedReleased(table: seq<Row>, q: Query, p: Policy, order: Order)
    ensures forall v :: v in Exported(table, q, p, order) <==> Released(table, q, p, Receives(p.destination), v)
    ensures Receives(p.destination) == {} ==> Exported(table, q, p, order) == []
  {
    ExportedMembers(table, q, p, order);
    forall r
      ensures Exportable(q, p, r) <==> IsReleased(q, p, Receives(p.destination), r)
    {
      ReleasedIffExportable(q, p, r);
    }
    NoneInNone(Exported(table, q, p, order));
  }

  lemma NoneInNone(values: seq<string>)
    ensures (forall v :: v !in values) ==> values == []
  {
    assert values != [] ==> values[0] in values;
  }

  lemma TagsMeet(a: set<string>, b: set<string>)
    ensures a * b != {} <==> exists t :: t in a && t in b
  {
    if t :| t in a && t in b {
      assert t in a * b;
    }
    if a * b != {} {
      var t :| t in a * b;
    }
  }

  lemma SafeChars(value: string)
    ensures IsLineSafe(value) <==>
      forall c :: c in value ==> ' ' <= c <= '~' || ('\U{00A0}' <= c && c != '\U{2028}' && c != '\U{2029}')
  {
    forall c: char
      ensures !LineUnsafe(c) <==> ' ' <= c <= '~' || ('\U{00A0}' <= c && c != '\U{2028}' && c != '\U{2029}')
    {
    }
    assert forall i :: 0 <= i < |value| ==> value[i] in value;
  }

  /** Every exportable value, with the exclusions counted by cause. Nothing is lost and nothing is counted twice. */
  method ExportValues(table: seq<Row>, q: Query, p: Policy, order: Order)
    returns (values: seq<string>, excluded: nat, byMarking: map<string, nat>)
    ensures values == Exported(table, q, p, order)
    ensures forall v :: v in values <==> exists r :: r in table && Exportable(q, p, r) && r.value == v
    ensures p.destination == "public" ==> forall v :: v in values <==> Released(table, q, p, {Some(T.Clear)}, v)
    ensures p.destination == "community" || p.destination == "external_ai" ==>
      forall v :: v in values <==> Released(table, q, p, {Some(T.Clear), Some(T.Green)}, v)
    ensures p.destination == "internal" ==>
      forall v :: v in values <==> Released(table, q, p, {None, Some(T.Clear), Some(T.Green), Some(T.Amber), Some(T.AmberStrict)}, v)
    ensures p.destination !in {"public", "community", "external_ai", "internal"} ==> values == []
    ensures excluded == Count(table, ExcludedTest(q, p))
    ensures forall t: T.Input :: T.MarkingKey(t) in byMarking && byMarking[T.MarkingKey(t)] == Count(table, HeldMarkTest(q, p, t))
    ensures byMarking.Keys == MarkingKeys() && TotalWithheld(byMarking) == Count(table, HeldTest(q, p))
    ensures order == ByRecent ==> |values| + excluded + TotalWithheld(byMarking) == Count(table, ConsideredTest(q, p))
    ensures InOrder(table, order, values) && ExclusionsAre(table, q, p, excluded, byMarking)
  {
    var rows := Select(table, SharedTest(q, p), order);
    values, excluded := CollectValues(p, order, rows);
    var withheldRows := Select(table, WithheldTest(q, p), ByRecent);
    var allowlisted;
    allowlisted, byMarking := WithheldCounts(p, withheldRows);
    ExportedMembers(table, q, p, order);
    ExportedReleased(table, q, p, order);
    ExcludedSplit(table, q, p, order, ByRecent);
    excluded := excluded + allowlisted;
    forall t: T.Input
      ensures Count(withheldRows, MarkTest(p, t)) == Count(table, HeldMarkTest(q, p, t))
    {
      SelectCount(table, WithheldTest(q, p), ByRecent, MarkTest(p, t), HeldMarkTest(q, p, t));
    }
    MarkingsPartition(p, withheldRows);
    SelectCount(table, WithheldTest(q, p), ByRecent, PassTest(p), HeldTest(q, p));
    SelectCount(table, SharedTest(q, p), order, PassTest(p), ExportTest(q, p));
    Conservation(table, q, p);
    ExportedOrder(table, q, p, order);
    ExclusionsExact(table, q, p, excluded, byMarking);
  }

  /** The SQL clause and the Python gate agree on rows, so what is exported is what may leave, and RED never does. */
  lemma ShareableIffMayLeave(p: Policy, r: Row)
    ensures Shareable(p, r) <==> T.MayLeave(r.tlp, p.destination)
    ensures Shareable(p, r) ==> T.Effective(r.tlp) != Some(T.Red)
  {
    T.EffectiveSqlIsJoin(r.tlp);
    T.GatesAgree(T.EffectiveSql(r.tlp), p.destination);
    if T.Effective(r.tlp) == Some(T.Red) {
      T.RedNeverLeaves(r.tlp, p.destination);
    } else if T.Effective(r.tlp).Some? {
      T.ParseTokenInverse(T.Effective(r.tlp).value, T.UNSPECIFIED);
    }
  }

  lemma RedNeverExported(table: seq<Row>, q: Query, p: Policy, order: Order, v: string)
    requires v in Exported(table, q, p, order)
    ensures exists r :: r in table && r.value == v && T.Effective(r.tlp) != Some(T.Red) && !p.allowlisted(r.typ, v)
  {
    ExportedMembers(table, q, p, order);
    var r :| r in table && Exportable(q, p, r) && r.value == v;
    ShareableIffMayLeave(p, r);
  }

  // ── The blocklist and its cache ───────────────────────────────────────

  /** The row of a (type, value) key. */
  function RowFor(table: seq<Row>, typ: ObsType, value: string): (r: Option<Row>)
    ensures r.Some? ==> r.value in table && r.value.typ == typ && r.value.value == value
    ensures r.None? ==> forall x :: x in table ==> x.typ != typ || x.value != value
  {
    if table == [] then None
    else
      var last := table[|table| - 1];
      if last.typ == typ && last.value == value then Some(last) else RowFor(table[..|table| - 1], typ, value)
  }

  lemma RowForUnique(table: seq<Row>, r: Row)
    requires ValidTable(table) && r in table
    ensures RowFor(table, r.typ, r.value) == Some(r)
  {
    var found := RowFor(table, r.typ, r.value);
    var i :| 0 <= i < |table| && table[i] == r;
    var j :| 0 <= j < |table| && table[j] == found.value;
    SameKey(table, i, j);
  }

  lemma SameKey(table: seq<Row>, i: nat, j: nat)
    requires ValidTable(table) && i < |table| && j < |table|
    requires table[i].typ == table[j].typ && table[i].value == table[j].value
    ensures i == j
  {
  }

  function LineSafeTest(): string -> bool {
    (v: string) => IsLineSafe(v)
  }

  /** The pre-policy list that is cached: distinct values of the matching rows in order, line-safe ones only. */
  method GetCandidates(table: seq<Row>, q: Query) returns (candidates: seq<string>)
    ensures candidates == Candidates(table, q)
  {
    var values := Sorting.Sort(Dedup(Values(Sorting.Filter(table, MatchTest(q)))), StringLe);
    candidates := [];
    for i := 0 to |values|
      invariant candidates == Sorting.Filter(values[..i], LineSafeTest())
    {
      KeepStep(values, i, LineSafeTest());
      if IsLineSafe(values[i]) {
        candidates := candidates + [values[i]];
      }
    }
    assert values[..|values|] == values;
  }

  function Candidates(table: seq<Row>, q: Query): seq<string> {
    Sorting.Filter(Sorting.Sort(Dedup(Values(Sorting.Filter(table, MatchTest(q)))), StringLe), LineSafeTest())
  }

  lemma KeepStep(values: seq<string>, i: nat, test: string -> bool)
    requires i < |values|
    ensures test(values[i]) ==> Sorting.Filter(values[..i + 1], test) == Sorting.Filter(values[..i], test) + [values[i]]
    ensures !test(values[i]) ==> Sorting.Filter(values[..i + 1], test) == Sorting.Filter(values[..i], test)
  {
    assert values[..i + 1][..i] == values[..i];
  }

  /** The value has a current row, the allowlist passes it, and its current marking may leave. */
  predicate Served(current: seq<Row>, typ: ObsType, p: Policy, v: string) {
    var r := RowFor(current, typ, v);
    !p.allowlisted(typ, v) && r.Some? && T.IsShareable(T.EffectiveSql(r.value.tlp), p.destination)
  }

  predicate HeldBack(current: seq<Row>, typ: ObsType, p: Policy, v: string) {
    var r := RowFor(current, typ, v);
    !p.allowlisted(typ, v) && r.Some? && !T.IsShareable(T.EffectiveSql(r.value.tlp), p.destination)
  }

  function ServedTest(current: seq<Row>, typ: ObsType, p: Policy): string -> bool {
    (v: string) => Served(current, typ, p, v)
  }

  function HeldBackTest(current: seq<Row>, typ: ObsType, p: Policy): string -> bool {
    (v: string) => HeldBack(current, typ, p, v)
  }

  /** m is the current marking of each of the values that has a row. */
  ghost predicate MarkingsOf(current: seq<Row>, typ: ObsType, values: seq<string>, m: map<string, Option<string>>) {
    forall v :: MarkingIs(current, typ, values, m, v)
  }

  ghost predicate MarkingIs(current: seq<Row>, typ: ObsType, values: seq<string>, m: map<string, Option<string>>, v: string) {
    var r := RowFor(current, typ, v);
    && (v in m <==> v in values && r.Some?)
    && (v in m ==> m[v] == T.EffectiveSql(r.value.tlp))
  }

  /** One chunk's query: the markings of its values. */
  method ChunkMarkings(current: seq<Row>, typ: ObsType, chunk: seq<string>) returns (m: map<string, Option<string>>)
    requires ValidTable(current)
    ensures MarkingsOf(current, typ, chunk, m)
  {
    m := map[];
    for i := 0 to |current|
      invariant MarkingsOf(current[..i], typ, chunk, m)
    {
      var row := current[i];
      ChunkStep(current, i, typ, chunk, m);
      if row.typ == typ && row.value in chunk {
        m := m[row.value := T.EffectiveSql(row.tlp)];
      }
    }
    assert current[..|current|] == current;
  }

  lemma RowForStep(table: seq<Row>, i: nat, typ: ObsType, v: string)
    requires i < |table|
    ensures table[i].typ == typ && table[i].value == v ==> RowFor(table[..i + 1], typ, v) == Some(table[i])
    ensures !(table[i].typ == typ && table[i].value == v) ==> RowFor(table[..i + 1], typ, v) == RowFor(table[..i], typ, v)
  {
    assert table[..i + 1][..i] == table[..i];
  }

  lemma ChunkStep(current: seq<Row>, i: nat, typ: ObsType, chunk: seq<string>, m: map<string, Option<string>>)
    requires i < |current| && MarkingsOf(current[..i], typ, chunk, m)
    ensures MarkingsOf(current[..i + 1], typ, chunk,
      if current[i].typ == typ && current[i].value in chunk then m[current[i].value := T.EffectiveSql(current[i].tlp)] else m)
  {
    var row := current[i];
    var now := current[..i + 1];
    var m' := if row.typ == typ && row.value in chunk then m[row.value := T.EffectiveSql(row.tlp)] else m;
    forall v
      ensures MarkingIs(now, typ, chunk, m', v)
    {
      assert MarkingIs(current[..i], typ, chunk, m, v);
      RowForStep(current, i, typ, v);
    }
  }

  /** The markings of all candidates, looked up in chunks of the distinct ones. */
  method CurrentMarkings(current: seq<Row>, typ: ObsType, candidates: seq<string>) returns (m: map<string, Option<string>>)
    requires ValidTable(current)
    ensures MarkingsOf(current, typ, candidates, m)
  {
    var unique := Dedup(candidates);
    m := map[];
    var start := 0;
    while start < |unique|
      invariant start <= |unique| && MarkingsOf(current, typ, unique[..start], m)
    {
      var stop := if start + BATCH_SIZE <= |unique| then start + BATCH_SIZE else |unique|;
      var more := ChunkMarkings(current, typ, unique[start..stop]);
      MarkingsAppend(current, typ, unique[..start], unique[start..stop], m, more);
      assert unique[..start] + unique[start..stop] == unique[..stop];
      m := m + more;
      start := stop;
    }
    assert unique[..start] == unique;
    DedupSpec(candidates);
    forall v
      ensures MarkingIs(current, typ, candidates, m, v)
    {
      assert MarkingIs(current, typ, unique, m, v);
    }
  }

  lemma MarkingsAppend(
      current: seq<Row>, typ: ObsType, a: seq<string>, b: seq<string>, m: map<string, Option<string>>, n: map<string, Option<string>>)
    requires MarkingsOf(current, typ, a, m) && MarkingsOf(current, typ, b, n)
    ensures MarkingsOf(current, typ, a + b, m + n)
  {
    forall v
      ensures MarkingIs(current, typ, a + b, m + n, v)
    {
      assert MarkingIs(current, typ, a, m, v) && MarkingIs(current, typ, b, n, v);
    }
  }

  /** Whatever the cache holds: the served values are the candidates, in order, whose current row may be served. */
  method ApplyBlocklistPolicy(current: seq<Row>, candidates: seq<string>, typ: ObsType, p: Policy)
    returns (values: seq<string>, withheld: nat)
    requires ValidTable(current)
    ensures values == Sorting.Filter(candidates, ServedTest(current, typ, p))
    ensures withheld == |Sorting.Filter(candidates, HeldBackTest(current, typ, p))|
  {
    var markings := CurrentMarkings(current, typ, candidates);
    values, withheld := [], 0;
    for i := 0 to |candidates|
      invariant values == Sorting.Filter(candidates[..i], ServedTest(current, typ, p))
      invariant withheld == |Sorting.Filter(candidates[..i], HeldBackTest(current, typ, p))|
    {
      KeepStep(candidates, i, ServedTest(current, typ, p));
      KeepStep(candidates, i, HeldBackTest(current, typ, p));
      var value := candidates[i];
      assert MarkingIs(current, typ, candidates, markings, value);
      if p.allowlisted(typ, value) || value !in markings {
        continue;
      }
      if !T.IsShareable(markings[value], p.destination) {
        withheld := withheld + 1;
        continue;
      }
      values := values + [value];
    }
    assert candidates[..|candidates|] == candidates;
  }

  // ── The blocklist path against the streamed path ──────────────────────

  lemma CandidatesSpec(table: seq<Row>, q: Query)
    ensures Sorting.Sorted(Candidates(table, q), StringLe) && Sorting.Distinct(Candidates(table, q))
    ensures forall v :: v in Candidates(table, q) <==> exists r :: r in table && Matches(q, r) && IsLineSafe(v) && r.value == v
  {
    var rows := Sorting.Filter(table, MatchTest(q));
    var values := Sorting.Sort(Dedup(Values(rows)), StringLe);
    StringLeLinear();
    DedupSpec(Values(rows));
    Sorting.SortSpec(Dedup(Values(rows)), StringLe);
    Sorting.SortMembers(Dedup(Values(rows)), StringLe);
    Sorting.MultisetDistinct(Dedup(Values(rows)), values);
    Sorting.FilterSorted(values, LineSafeTest(), StringLe);
    Sorting.FilterDistinct(values, LineSafeTest());
    Sorting.FilterMembers(values, LineSafeTest());
    ValuesMembers(rows);
    Sorting.FilterMembers(table, MatchTest(q));
  }

  lemma ExportedSorted(table: seq<Row>, q: Query, p: Policy)
    ensures Sorting.Sorted(Exported(table, q, p, ByValue), StringLe) && Sorting.Distinct(Exported(table, q, p, ByValue))
  {
    var rows := Select(table, SharedTest(q, p), ByValue);
    SelectMembers(table, SharedTest(q, p), ByValue);
    Sorting.FilterSorted(rows, PassTest(p), ValueLe);
    var kept := Sorting.Filter(rows, PassTest(p));
    forall i, j | 0 <= i < j < |kept|
      ensures StringLe(Values(kept)[i], Values(kept)[j])
    {
      assert ValueLe(kept[i], kept[j]);
      StringLeOf(kept[i].value, kept[j].value);
    }
    DedupSorted(Values(kept));
    DedupSpec(Values(kept));
  }

  lemma StringLeOf(a: string, b: string)
    ensures StringLe(a, b) <==> StringLess(a, b) || a == b
  {
    StringLessTotal(a, b);
    StringLessIrreflexive(a);
  }

  /** With one type selected, a value has one row, and the two gates judge that row alike. */
  lemma CandidateVerdict(table: seq<Row>, q: Query, p: Policy, typ: ObsType, v: string)
    requires ValidTable(table) && q.obsType == Some(typ) && p.lineSafe
    ensures v in Candidates(table, q) && Served(table, typ, p, v) <==> exists r :: r in table && Exportable(q, p, r) && r.value == v
    ensures v in Candidates(table, q) && HeldBack(table, typ, p, v) <==> exists r :: r in table && HeldTest(q, p)(r) && r.value == v
  {
    CandidatesSpec(table, q);
    if v in Candidates(table, q) {
      var r :| r in table && Matches(q, r) && IsLineSafe(v) && r.value == v;
      RowForUnique(table, r);
      ShareableIffMayLeave(p, r);
    }
    if r :| r in table && Matches(q, r) && Passes(p, r) && r.value == v {
      RowForUnique(table, r);
      ShareableIffMayLeave(p, r);
    }
  }

  lemma OneRowPerValue(table: seq<Row>, q: Query, test: Row -> bool, typ: ObsType)
    requires ValidTable(table) && forall r :: test(r) ==> r.typ == typ
    ensures Sorting.Distinct(Values(Sorting.Filter(table, test)))
  {
    var rows := Sorting.Filter(table, test);
    KeysDistinct(table, test);
    Sorting.FilterMembers(table, test);
    forall i, j | 0 <= i < j < |rows|
      ensures Values(rows)[i] != Values(rows)[j]
    {
      assert rows[i] in rows && rows[j] in rows;
    }
  }

  lemma {:induction false} KeysDistinct(table: seq<Row>, test: Row -> bool)
    requires ValidTable(table)
    ensures ValidTable(Sorting.Filter(table, test))
  {
    if table != [] {
      var front, last := table[..|table| - 1], table[|table| - 1];
      KeysDistinct(front, test);
      Sorting.FilterMembers(front, test);
      var kept := Sorting.Filter(front, test);
      forall i | 0 <= i < |kept|
        ensures kept[i].id != last.id && (kept[i].typ != last.typ || kept[i].value != last.value)
      {
        assert kept[i] in kept;
        var k :| 0 <= k < |front| && front[k] == kept[i];
        assert table[k] == kept[i];
      }
    }
  }

  /** On one state the cached blocklist and the streamed export give the same values, in the same order, and withhold equally many. */
  lemma BlocklistAgrees(table: seq<Row>, q: Query, p: Policy, typ: ObsType)
    requires ValidTable(table) && q.obsType == Some(typ) && p.lineSafe
    ensures Sorting.Filter(Candidates(table, q), ServedTest(table, typ, p)) == Exported(table, q, p, ByValue)
    ensures |Sorting.Filter(Candidates(table, q), HeldBackTest(table, typ, p))| == Count(table, HeldTest(q, p))
  {
    var candidates := Candidates(table, q);
    var served, held := Sorting.Filter(candidates, ServedTest(table, typ, p)), Sorting.Filter(candidates, HeldBackTest(table, typ, p));
    var exported, rows := Exported(table, q, p, ByValue), Sorting.Filter(table, HeldTest(q, p));
    CandidatesSpec(table, q);
    ExportedSorted(table, q, p);
    ExportedMembers(table, q, p, ByValue);
    ServedMembers(table, q, p, typ);
    Sorting.FilterSorted(candidates, ServedTest(table, typ, p), StringLe);
    Sorting.FilterDistinct(candidates, ServedTest(table, typ, p));
    Sorting.SameMembers(served, exported);
    StringLeLinear();
    Sorting.SortedUnique(served, exported, StringLe);
    Sorting.FilterDistinct(candidates, HeldBackTest(table, typ, p));
    OneRowPerValue(table, q, HeldTest(q, p), typ);
    Sorting.SameMembers(held, Values(rows));
  }

  lemma ServedMembers(table: seq<Row>, q: Query, p: Policy, typ: ObsType)
    requires ValidTable(table) && q.obsType == Some(typ) && p.lineSafe
    ensures forall v :: v in Sorting.Filter(Candidates(table, q), ServedTest(table, typ, p)) <==> v in Exported(table, q, p, ByValue)
    ensures forall v :: v in Sorting.Filter(Candidates(table, q), HeldBackTest(table, typ, p)) <==>
      v in Values(Sorting.Filter(table, HeldTest(q, p)))
  {
    ExportedMembers(table, q, p, ByValue);
    Sorting.FilterMembers(Candidates(table, q), ServedTest(table, typ, p));
    Sorting.FilterMembers(Candidates(table, q), HeldBackTest(table, typ, p));
    Sorting.FilterMembers(table, HeldTest(q, p));
    ValuesMembers(Sorting.Filter(table, HeldTest(q, p)));
    forall v
      ensures v in Candidates(table, q) && Served(table, typ, p, v) <==> v in Exported(table, q, p, ByValue)
      ensures v in Candidates(table, q) && HeldBack(table, typ, p, v) <==> v in Values(Sorting.Filter(table, HeldTest(q, p)))
    {
      CandidateVerdict(table, q, p, typ, v);
    }
  }

  // ── The limited JSON export ───────────────────────────────────────────

  function Ids(rows: seq<Row>): (ids: seq<nat>)
    ensures |ids| == |rows|
    ensures forall i :: 0 <= i < |rows| ==> ids[i] == rows[i].id
  {
    if rows == [] then [] else Ids(rows[..|rows| - 1]) + [rows[|rows| - 1].id]
  }

  /** The first so many; no limit takes all, and a limit below one takes none. */
  function Take<T>(s: seq<T>, limit: Option<int>): seq<T> {
    if limit.None? || limit.value >= |s| then s else if limit.value <= 0 then [] else s[..limit.value]
  }

  /** The eligible rows in export order. */
  function Eligible(table: seq<Row>, q: Query, p: Policy): seq<Row> {
    Sorting.Filter(Select(table, SharedTest(q, p), ByRecent), PassTest(p.(lineSafe := false)))
  }

  /** Pass 1: walk the ordered rows, skip the allowlisted ones, stop at the limit. */
  method PickIds(p: Policy, rows: seq<Row>, limit: Option<int>) returns (selected: seq<nat>)
    requires limit.Some? ==> limit.value > 0
    ensures selected == Take(Ids(Sorting.Filter(rows, PassTest(p.(lineSafe := false)))), limit)
  {
    ghost var test := PassTest(p.(lineSafe := false));
    selected := [];
    for i := 0 to |rows|
      invariant selected == Ids(Sorting.Filter(rows[..i], test))
      invariant limit.Some? ==> |selected| < limit.value
    {
      CountStep(rows, i, test);
      if p.allowlisted(rows[i].typ, rows[i].value) {
        continue;
      }
      IdsStep(Sorting.Filter(rows[..i], test), rows[i]);
      selected := selected + [rows[i].id];
      if limit.Some? && |selected| >= limit.value {
        StoppedEarly(rows, i, test, limit.value);
        return;
      }
    }
    assert rows[..|rows|] == rows;
  }

  lemma IdsStep(rows: seq<Row>, r: Row)
    ensures Ids(rows + [r]) == Ids(rows) + [r.id]
  {
    assert (rows + [r])[..|rows|] == rows;
  }

  lemma StoppedEarly(rows: seq<Row>, i: nat, test: Row -> bool, limit: int)
    requires i < |rows| && limit > 0 && |Sorting.Filter(rows[..i + 1], test)| == limit
    ensures Ids(Sorting.Filter(rows[..i + 1], test)) == Take(Ids(Sorting.Filter(rows, test)), Some(limit))
  {
    var head, tail := rows[..i + 1], rows[i + 1..];
    assert rows == head + tail;
    Sorting.FilterConcat(head, tail, test);
  }

  function RowById(table: seq<Row>, id: nat): (r: Option<Row>)
    ensures r.Some? ==> r.value in table && r.value.id == id
    ensures r.None? ==> forall x :: x in table ==> x.id != id
  {
    if table == [] then None
    else if table[|table| - 1].id == id then Some(table[|table| - 1])
    else RowById(table[..|table| - 1], id)
  }

  /** Pass 2 as a specification: the i-th id is looked up in the state its chunk saw, and a deleted row is skipped. */
  function Reloaded(ids: seq<nat>, states: nat -> seq<Row>): seq<Row> {
    if ids == [] then []
    else
      var i := |ids| - 1;
      var r := RowById(states(i / BATCH_SIZE), ids[i]);
      Reloaded(ids[..i], states) + (if r.Some? then [r.value] else [])
  }

  /** Pass 2: load the selected rows chunk by chunk, in the selected order. */
  method LoadRows(ids: seq<nat>, states: nat -> seq<Row>) returns (rows: seq<Row>)
    ensures rows == Reloaded(ids, states)
  {
    rows := [];
    var start, chunk := 0, 0;
    while start < |ids|
      invariant start <= |ids| && (start == chunk * BATCH_SIZE || start == |ids|)
      invariant rows == Reloaded(ids[..start], states)
    {
      var stop := if start + BATCH_SIZE <= |ids| then start + BATCH_SIZE else |ids|;
      var table := states(chunk);
      for i := start to stop
        invariant rows == Reloaded(ids[..i], states)
      {
        assert ids[..i + 1][..i] == ids[..i] && i / BATCH_SIZE == chunk;
        var r := RowById(table, ids[i]);
        if r.Some? {
          rows := rows + [r.value];
        }
      }
      start, chunk := stop, chunk + 1;
    }
    assert ids[..start] == ids;
  }

  /** The limited export; states are what the chunked reloads see, which may differ from the table of pass 1. */
  method ExportJson(table: seq<Row>, q: Query, p: Policy, limit: Option<int>, states: nat -> seq<Row>) returns (rows: seq<Row>)
    requires ValidTable(table)
    ensures rows == Reloaded(Take(Ids(Eligible(table, q, p)), limit), states)
    ensures (forall k :: states(k) == table) ==> rows == Take(Eligible(table, q, p), limit)
    ensures (forall k :: states(k) == table) ==> NewestReleased(table, q, p.(lineSafe := false), limit, rows)
  {
    TakenAreNewest(table, q, p, limit);
    var selected: seq<nat> := [];
    if limit.None? || limit.value > 0 {
      selected := PickIds(p, Select(table, SharedTest(q, p), ByRecent), limit);
    }
    rows := LoadRows(selected, states);
    if forall k :: states(k) == table {
      EligibleRows(table, q, p);
      TakeIds(Eligible(table, q, p), limit);
      ReloadedSame(table, Take(Eligible(table, q, p), limit), states);
    }
  }

  lemma EligibleRows(table: seq<Row>, q: Query, p: Policy)
    ensures forall r :: r in Eligible(table, q, p) <==> r in table && Exportable(q, p.(lineSafe := false), r)
    ensures Sorting.Sorted(Eligible(table, q, p), RecentLe)
  {
    SelectMembers(table, SharedTest(q, p), ByRecent);
    Sorting.FilterMembers(Select(table, SharedTest(q, p), ByRecent), PassTest(p.(lineSafe := false)));
    Sorting.FilterSorted(Select(table, SharedTest(q, p), ByRecent), PassTest(p.(lineSafe := false)), RecentLe);
  }

  /** The first rows that the destination may have, newest first, and no more than the limit. */
  ghost predicate NewestReleased(table: seq<Row>, q: Query, p: Policy, limit: Option<int>, rows: seq<Row>) {
    && (limit.Some? ==> |rows| <= (if limit.value > 0 then limit.value else 0))
    && (forall r :: r in rows ==> r in table && IsReleased(q, p, Receives(p.destination), r))
    && (forall i, j :: 0 <= i < j < |rows| ==> IsNewer(rows[i], rows[j]))
    && forall r :: r in table && IsReleased(q, p, Receives(p.destination), r) && r !in rows ==> LeftOver(limit, rows, r)
  }

  /** The limit is reached, by newer rows. */
  ghost predicate LeftOver(limit: Option<int>, rows: seq<Row>, r: Row) {
    limit.Some? && |rows| == (if limit.value > 0 then limit.value else 0) && forall i :: 0 <= i < |rows| ==> IsNewer(rows[i], r)
  }

  lemma TakenAreNewest(table: seq<Row>, q: Query, p: Policy, limit: Option<int>)
    ensures NewestReleased(table, q, p.(lineSafe := false), limit, Take(Eligible(table, q, p), limit))
  {
    var all, plain := Eligible(table, q, p), p.(lineSafe := false);
    var rows := Take(all, limit);
    EligibleRows(table, q, p);
    forall r
      ensures Exportable(q, plain, r) <==> IsReleased(q, plain, Receives(p.destination), r)
    {
      ReleasedIffExportable(q, plain, r);
    }
    forall i, j | 0 <= i < j < |all|
      ensures IsNewer(all[i], all[j])
    {
      assert RecentLe(all[i], all[j]);
    }
    assert forall i :: 0 <= i < |rows| ==> rows[i] == all[i];
    forall r | r in all && r !in rows
      ensures LeftOver(limit, rows, r)
    {
      var j :| 0 <= j < |all| && all[j] == r;
      assert forall i :: 0 <= i < |rows| ==> rows[i] != r;
    }
  }

  lemma TakeIds(rows: seq<Row>, limit: Option<int>)
    ensures Take(Ids(rows), limit) == Ids(Take(rows, limit))
    ensures forall r :: r in Take(rows, limit) ==> r in rows
  {
  }

  lemma {:induction false} ReloadedSame(table: seq<Row>, rows: seq<Row>, states: nat -> seq<Row>)
    requires ValidTable(table) && (forall k :: states(k) == table) && forall r :: r in rows ==> r in table
    ensures Reloaded(Ids(rows), states) == rows
  {
    if rows != [] {
      var front, last := rows[..|rows| - 1], rows[|rows| - 1];
      ReloadedSame(table, front, states);
      assert rows == front + [last];
      IdsStep(front, last);
      ReloadedStep(Ids(front), last.id, states);
      RowByIdUnique(table, last);
    }
  }

  lemma ReloadedStep(ids: seq<nat>, id: nat, states: nat -> seq<Row>)
    ensures Reloaded(ids + [id], states) ==
      Reloaded(ids, states) + (var r := RowById(states(|ids| / BATCH_SIZE), id); if r.Some? then [r.value] else [])
  {
    assert (ids + [id])[..|ids|] == ids;
  }

  lemma RowByIdUnique(table: seq<Row>, r: Row)
    requires ValidTable(table) && r in table
    ensures RowById(table, r.id) == Some(r)
  {
    var found := RowById(table, r.id).value;
    var i :| 0 <= i < |table| && table[i] == r;
    var j :| 0 <= j < |table| && table[j] == found;
    SameId(table, i, j);
  }

  lemma SameId(table: seq<Row>, i: nat, j: nat)
    requires ValidTable(table) && i < |table| && j < |table| && table[i].id == table[j].id
    ensures i == j
  {
  }

  // ── What the second pass of the JSON export may change ────────────────

  /** Neither RED nor otherwise out of bounds for the destination, and not allowlisted. */
  predicate MayExport(p: Policy, r: Row) {
    Shareable(p, r) && !p.allowlisted(r.typ, r.value)
  }

  /** The i-th selected id, as its chunk of the reload sees it: still there and no longer exportable. */
  predicate WentBad(p: Policy, ids: seq<nat>, states: nat -> seq<Row>, i: nat)
    requires i < |ids|
  {
    var r := RowById(states(i / BATCH_SIZE), ids[i]);
    r.Some? && !MayExport(p, r.value)
  }

  lemma {:induction false} ReloadedMembers(ids: seq<nat>, states: nat -> seq<Row>, r: Row)
    ensures r in Reloaded(ids, states) <==> exists i :: 0 <= i < |ids| && RowById(states(i / BATCH_SIZE), ids[i]) == Some(r)
  {
    if ids != [] {
      var front := ids[..|ids| - 1];
      ReloadedMembers(front, states, r);
      assert ids == front + [ids[|front|]];
      assert forall i :: 0 <= i < |front| ==> front[i] == ids[i];
    }
  }

  /** Nothing is checked again when the selected rows are loaded: every exported row may leave
      exactly when no selected row changed for the worse before its chunk was read. */
  lemma JsonRowsSafeIff(table: seq<Row>, q: Query, p: Policy, limit: Option<int>, states: nat -> seq<Row>)
    ensures var ids := Take(Ids(Eligible(table, q, p)), limit);
      (forall r :: r in Reloaded(ids, states) ==> MayExport(p, r)) <==> !exists i :: 0 <= i < |ids| && WentBad(p, ids, states, i)
  {
    var ids := Take(Ids(Eligible(table, q, p)), limit);
    forall r
      ensures r in Reloaded(ids, states) <==> exists i :: 0 <= i < |ids| && RowById(states(i / BATCH_SIZE), ids[i]) == Some(r)
    {
      ReloadedMembers(ids, states, r);
    }
    if i :| 0 <= i < |ids| && WentBad(p, ids, states, i) {
      assert RowById(states(i / BATCH_SIZE), ids[i]).value in Reloaded(ids, states);
    }
    if r :| r in Reloaded(ids, states) && !MayExport(p, r) {
      var i :| 0 <= i < |ids| && RowById(states(i / BATCH_SIZE), ids[i]) == Some(r);
      assert WentBad(p, ids, states, i);
    }
  }

  // ── Edits between the passes ──────────────────────────────────────────

  /** Someone changes a row's markings, deletes a row, or allowlists a value. Rows added meanwhile are never selected. */
  datatype Edit = Mark(id: nat, tlp: T.Observable) | Remove(id: nat) | Allow(typ: ObsType, value: string)

  function EditRow(r: Row, e: Edit): Option<Row> {
    match e
    case Mark(id, tlp) => Some(if r.id == id then r.(tlp := tlp) else r)
    case Remove(id) => if r.id == id then None else Some(r)
    case Allow(_, _) => Some(r)
  }

  function EditTable(table: seq<Row>, e: Edit): seq<Row> {
    if table == [] then []
    else
      var r := EditRow(table[|table| - 1], e);
      EditTable(table[..|table| - 1], e) + (if r.Some? then [r.value] else [])
  }

  function After(table: seq<Row>, edits: seq<Edit>): seq<Row> {
    if edits == [] then table else EditTable(After(table, edits[..|edits| - 1]), edits[|edits| - 1])
  }

  /** The markings the last edit gave a row, if any did. */
  function LastMark(edits: seq<Edit>, id: nat): Option<T.Observable> {
    if edits == [] then None
    else
      var e := edits[|edits| - 1];
      if e.Mark? && e.id == id then Some(e.tlp) else LastMark(edits[..|edits| - 1], id)
  }

  /** What is left of a row. */
  function RowAfter(r: Row, edits: seq<Edit>): Option<Row> {
    if Remove(r.id) in edits then None
    else
      var mark := LastMark(edits, r.id);
      Some(if mark.Some? then r.(tlp := mark.value) else r)
  }

  lemma {:induction false} EditedRow(table: seq<Row>, e: Edit, id: nat)
    ensures RowById(EditTable(table, e), id) ==
      if RowById(table, id).None? then None else EditRow(RowById(table, id).value, e)
  {
    if table != [] {
      var front, last := table[..|table| - 1], table[|table| - 1];
      EditedRow(front, e, id);
      RowByIdAppend(front, last, id);
      assert table == front + [last];
      if EditRow(last, e).Some? {
        RowByIdAppend(EditTable(front, e), EditRow(last, e).value, id);
      } else {
        assert EditTable(table, e) == EditTable(front, e);
        RemovedRow(front, last.id);
      }
    }
  }

  lemma RowByIdAppend(table: seq<Row>, r: Row, id: nat)
    ensures RowById(table + [r], id) == if r.id == id then Some(r) else RowById(table, id)
  {
    assert (table + [r])[..|table|] == table;
  }

  lemma {:induction false} RemovedRow(table: seq<Row>, id: nat)
    ensures RowById(EditTable(table, Remove(id)), id) == None
  {
    if table != [] {
      var front, last := table[..|table| - 1], table[|table| - 1];
      RemovedRow(front, id);
      if last.id != id {
        RowByIdAppend(EditTable(front, Remove(id)), last, id);
      }
    }
  }

  lemma {:induction false} RowAfterEdits(table: seq<Row>, edits: seq<Edit>, r: Row)
    requires RowById(table, r.id) == Some(r)
    ensures RowById(After(table, edits), r.id) == RowAfter(r, edits)
    decreases |edits|
  {
    if edits != [] {
      var front, e := edits[..|edits| - 1], edits[|edits| - 1];
      RowAfterEdits(table, front, r);
      EditedRow(After(table, front), e, r.id);
      assert edits == front + [e];
    }
  }

  /** The allowlist with what was added to it. */
  predicate AllowedBy(p: Policy, edits: seq<Edit>, r: Row) {
    p.allowlisted(r.typ, r.value) || Allow(r.typ, r.value) in edits
  }

  /** A row as it was read, judged by the allowlist at the end. */
  predicate MayStillLeave(p: Policy, edits: seq<Edit>, r: Row) {
    Shareable(p, r) && !AllowedBy(p, edits, r)
  }

  /** The edits withdraw a selected row: it is not removed before its chunk is read, and either its last marking by then is out of
      bounds for the destination, or its value is allowlisted. */
  predicate Withdrawn(p: Policy, edits: seq<Edit>, seen: nat, r: Row)
    requires seen <= |edits|
  {
    && Remove(r.id) !in edits[..seen]
    && (Allow(r.typ, r.value) in edits
        || (LastMark(edits[..seen], r.id).Some? && !T.ShareableClause(T.EffectiveSql(LastMark(edits[..seen], r.id).value), p.destination)))
  }

  /** Chunk k of the reload sees the first cuts(k) edits. */
  ghost predicate Cuts(cuts: nat -> nat, edits: seq<Edit>) {
    forall k :: cuts(k) <= |edits|
  }

  function StatesOf(table: seq<Row>, edits: seq<Edit>, cuts: nat -> nat): nat -> seq<Row> {
    (k: nat) => After(table, if cuts(k) <= |edits| then edits[..cuts(k)] else edits)
  }

  lemma SelectedRow(table: seq<Row>, q: Query, p: Policy, limit: Option<int>, i: nat)
    requires ValidTable(table) && i < |Take(Eligible(table, q, p), limit)|
    ensures var r := Take(Eligible(table, q, p), limit)[i];
      && RowById(table, r.id) == Some(r) && MayExport(p, r)
      && i < |Take(Ids(Eligible(table, q, p)), limit)| && Take(Ids(Eligible(table, q, p)), limit)[i] == r.id
  {
    var r := Take(Eligible(table, q, p), limit)[i];
    EligibleRows(table, q, p);
    TakeIds(Eligible(table, q, p), limit);
    assert r in Take(Eligible(table, q, p), limit);
    RowByIdUnique(table, r);
  }

  /** One selected row: what its chunk reads may leave, unless the edits withdrew it. */
  lemma WithdrawnIff(table: seq<Row>, p: Policy, edits: seq<Edit>, seen: nat, r: Row)
    requires RowById(table, r.id) == Some(r) && MayExport(p, r) && seen <= |edits|
    ensures var now := RowById(After(table, edits[..seen]), r.id);
      now.Some? && !MayStillLeave(p, edits, now.value) <==> Withdrawn(p, edits, seen, r)
  {
    RowAfterEdits(table, edits[..seen], r);
  }

  predicate ReadBad(p: Policy, edits: seq<Edit>, ids: seq<nat>, states: nat -> seq<Row>, i: nat)
    requires i < |ids|
  {
    var now := RowById(states(i / BATCH_SIZE), ids[i]);
    now.Some? && !MayStillLeave(p, edits, now.value)
  }

  lemma ReloadedSafe(p: Policy, edits: seq<Edit>, ids: seq<nat>, states: nat -> seq<Row>)
    ensures (forall r :: r in Reloaded(ids, states) ==> MayStillLeave(p, edits, r)) <==>
      forall i :: 0 <= i < |ids| ==> !ReadBad(p, edits, ids, states, i)
  {
    if i :| 0 <= i < |ids| && ReadBad(p, edits, ids, states, i) {
      ReloadedMembers(ids, states, RowById(states(i / BATCH_SIZE), ids[i]).value);
    }
    if r :| r in Reloaded(ids, states) && !MayStillLeave(p, edits, r) {
      ReloadedMembers(ids, states, r);
      var i :| 0 <= i < |ids| && RowById(states(i / BATCH_SIZE), ids[i]) == Some(r);
      assert ReadBad(p, edits, ids, states, i);
    }
  }

  lemma SelectedWithdrawn(table: seq<Row>, q: Query, p: Policy, limit: Option<int>, edits: seq<Edit>, cuts: nat -> nat, i: nat)
    requires ValidTable(table) && Cuts(cuts, edits) && i < |Take(Eligible(table, q, p), limit)|
    ensures var ids := Take(Ids(Eligible(table, q, p)), limit);
      i < |ids| && (ReadBad(p, edits, ids, StatesOf(table, edits, cuts), i)
        <==> Withdrawn(p, edits, cuts(i / BATCH_SIZE), Take(Eligible(table, q, p), limit)[i]))
  {
    SelectedRow(table, q, p, limit, i);
    WithdrawnIff(table, p, edits, cuts(i / BATCH_SIZE), Take(Eligible(table, q, p), limit)[i]);
  }

  /**
   * The rows are not checked again when they are loaded. Whatever is edited meanwhile, every exported row may still leave
   * exactly when the edits withdraw no selected row that is still there when its chunk is read.
   */
  lemma JsonExportSafeIff(
      table: seq<Row>, q: Query, p: Policy, limit: Option<int>, edits: seq<Edit>, cuts: nat -> nat)
    requires ValidTable(table) && Cuts(cuts, edits)
    ensures var selected := Take(Eligible(table, q, p), limit);
      (forall r :: r in Reloaded(Take(Ids(Eligible(table, q, p)), limit), StatesOf(table, edits, cuts)) ==> MayStillLeave(p, edits, r))
        <==> forall i :: 0 <= i < |selected| ==> !Withdrawn(p, edits, cuts(i / BATCH_SIZE), selected[i])
  {
    var selected, ids, states := Take(Eligible(table, q, p), limit), Take(Ids(Eligible(table, q, p)), limit), StatesOf(table, edits, cuts);
    TakeIds(Eligible(table, q, p), limit);
    assert |ids| == |selected|;
    forall i | 0 <= i < |selected|
      ensures i < |ids| && (ReadBad(p, edits, ids, states, i) <==> Withdrawn(p, edits, cuts(i / BATCH_SIZE), selected[i]))
    {
      SelectedWithdrawn(table, q, p, limit, edits, cuts, i);
    }
    ReloadedSafe(p, edits, ids, states);
  }

  /** When nothing changes in between, the JSON export never yields a RED or an allowlisted row. */
  lemma JsonExportNeverRed(table: seq<Row>, q: Query, p: Policy, limit: Option<int>, states: nat -> seq<Row>, r: Row)
    requires ValidTable(table) && (forall k :: states(k) == table)
    requires r in Reloaded(Take(Ids(Eligible(table, q, p)), limit), states)
    ensures MayExport(p, r) && T.Effective(r.tlp) != Some(T.Red)
  {
    EligibleRows(table, q, p);
    TakeIds(Eligible(table, q, p), limit);
    ReloadedSame(table, Take(Eligible(table, q, p), limit), states);
    ShareableIffMayLeave(p, r);
  }

  /** One address under a marking set by an analyst. */
  function Indicator(marking: T.Marking): Row {
    Row(1, IpAddr, "8.8.8.8", 50, 0, {}, {}, T.Observable([], [], None, Some(marking)))
  }

  /** A CLEAR row selected by the first pass and marked RED before the second is exported. */
  lemma MarkedBetweenPasses(p: Policy, q: Query)
    requires p.destination == "public" && !p.allowlisted(IpAddr, "8.8.8.8") && q == Query(None, 0, None, None, {})
    ensures ValidTable([Indicator(T.Clear)]) && T.Effective(Indicator(T.Red).tlp) == Some(T.Red)
    ensures Indicator(T.Red) in Reloaded(Take(Ids(Eligible([Indicator(T.Clear)], q, p)), None), _ => [Indicator(T.Red)])
  {
    var clear, red := Indicator(T.Clear), Indicator(T.Red);
    var states := (k: nat) => [red];
    var eligible := Eligible([clear], q, p);
    EligibleRows([clear], q, p);
    ClearIsShareable(p, clear);
    assert clear in eligible;
    var i :| 0 <= i < |eligible| && eligible[i] == clear;
    assert RowById(states(i / BATCH_SIZE), Ids(eligible)[i]) == Some(red);
    ReloadedMembers(Ids(eligible), states, red);
    SameStates(Ids(eligible), states, _ => [red]);
  }

  lemma {:induction false} SameStates(ids: seq<nat>, a: nat -> seq<Row>, b: nat -> seq<Row>)
    requires forall k :: a(k) == b(k)
    ensures Reloaded(ids, a) == Reloaded(ids, b)
  {
    if ids != [] {
      SameStates(ids[..|ids| - 1], a, b);
    }
  }

  lemma ClearIsShareable(p: Policy, r: Row)
    requires p.destination == "public" && r.tlp.override_ == Some(T.Clear)
    ensures Shareable(p, r)
  {
    assert T.MarkingKey(Some(T.Clear)) == "clear" && T.EffectiveSql(r.tlp) == Some("clear");
  }
}
