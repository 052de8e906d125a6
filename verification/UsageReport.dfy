/** The usage report's grouped totals, and the keyset pages of its records. */
module UsageReport {
  import opened Wrappers
  import opened StringOrder
  import Sorting

  const BREAKDOWN_LIMIT := 100

  datatype Status = Succeeded | Failed | Cancelled | Reserved

  datatype Billable = Yes | No | Unknown

  /** Money is in millionths of a dollar, as the exact sums are. */
  datatype Record = Record(
    id: nat, startedAt: int, provider: string, model: string, status: Status,
    inputTokens: Option<nat>, outputTokens: Option<nat>, cost: Option<int>, billable: Billable, hold: Option<int>)

  /** The eleven fields of a totals row. */
  datatype Sums = Sums(
    requests: int, succeeded: int, failed: int, cancelled: int, reserved: int, inputTokens: int, outputTokens: int,
    tokenUnknown: int, cost: int, costUnknown: int, committed: int)

  const ZERO := Sums(0, 0, 0, 0, 0, 0, 0, 0, 0, 0, 0)

  function Plus(a: Sums, b: Sums): Sums {
    Sums(a.requests + b.requests, a.succeeded + b.succeeded, a.failed + b.failed, a.cancelled + b.cancelled,
      a.reserved + b.reserved, a.inputTokens + b.inputTokens, a.outputTokens + b.outputTokens,
      a.tokenUnknown + b.tokenUnknown, a.cost + b.cost, a.costUnknown + b.costUnknown, a.committed + b.committed)
  }

  function Minus(a: Sums, b: Sums): Sums {
    Sums(a.requests - b.requests, a.succeeded - b.succeeded, a.failed - b.failed, a.cancelled - b.cancelled,
      a.reserved - b.reserved, a.inputTokens - b.inputTokens, a.outputTokens - b.outputTokens,
      a.tokenUnknown - b.tokenUnknown, a.cost - b.cost, a.costUnknown - b.costUnknown, a.committed - b.committed)
  }

  function One(condition: bool): int {
    if condition then 1 else 0
  }

  /** What one record commits of the budget: its cost, or the amount held for it as long as it may still be billed. */
  function Committed(r: Record): int {
    if r.cost.Some? then r.cost.value
    else if r.status == Reserved || r.billable == Yes || r.billable == Unknown then
      if r.hold.Some? then r.hold.value else 0
    else 0
  }

  /** What one record adds to an aggregate. A missing number counts as unknown, never as zero spent. */
  function RecordSums(r: Record): Sums {
    Sums(1, One(r.status == Succeeded), One(r.status == Failed), One(r.status == Cancelled), One(r.status == Reserved),
      if r.inputTokens.Some? then r.inputTokens.value else 0, if r.outputTokens.Some? then r.outputTokens.value else 0,
      One(r.inputTokens.None? || r.outputTokens.None?), if r.cost.Some? then r.cost.value else 0, One(r.cost.None?), Committed(r))
  }

  /** One SQL aggregate over the records a test selects. */
  function Aggregate(records: seq<Record>, test: Record -> bool): Sums {
    if records == [] then ZERO
    else
      var front := Aggregate(records[..|records| - 1], test);
      if test(records[|records| - 1]) then Plus(front, RecordSums(records[|records| - 1])) else front
  }

  // ── What the columns of an aggregate say ──────────────────────────────

  ghost function CountWhere(records: seq<Record>, test: Record -> bool): nat {
    |set i: nat | i < |records| && test(records[i])|
  }

  function Total(records: seq<Record>, amount: Record -> int): int {
    if records == [] then 0 else Total(records[..|records| - 1], amount) + amount(records[|records| - 1])
  }

  /** The five counts: every selected record is in the first, and in the one of its status. */
  ghost predicate CountsMean(records: seq<Record>, test: Record -> bool, s: Sums) {
    && s.requests == CountWhere(records, test)
    && s.succeeded == CountWhere(records, (r: Record) => test(r) && r.status == Succeeded)
    && s.failed == CountWhere(records, (r: Record) => test(r) && r.status == Failed)
    && s.cancelled == CountWhere(records, (r: Record) => test(r) && r.status == Cancelled)
    && s.reserved == CountWhere(records, (r: Record) => test(r) && r.status == Reserved)
  }

  /** Records whose tokens or cost are missing are counted apart. */
  ghost predicate UnknownsMean(records: seq<Record>, test: Record -> bool, s: Sums) {
    && s.tokenUnknown == CountWhere(records, (r: Record) => test(r) && (r.inputTokens == None || r.outputTokens == None))
    && s.costUnknown == CountWhere(records, (r: Record) => test(r) && r.cost == None)
  }

  /** The sums of the known tokens and costs, and of what is committed. */
  ghost predicate AmountsMean(records: seq<Record>, test: Record -> bool, s: Sums) {
    && s.inputTokens == Total(records, (r: Record) => if test(r) && r.inputTokens.Some? then r.inputTokens.value else 0)
    && s.outputTokens == Total(records, (r: Record) => if test(r) && r.outputTokens.Some? then r.outputTokens.value else 0)
    && s.cost == Total(records, (r: Record) => if test(r) && r.cost.Some? then r.cost.value else 0)
    && s.committed == s.cost + Total(records, (r: Record) => if test(r) && MayBeBilled(r) && r.hold.Some? then r.hold.value else 0)
  }

  /** No cost is known, and the record is still reserved or not known to be free. */
  predicate MayBeBilled(r: Record) {
    r.cost == None && !(r.status in {Succeeded, Failed, Cancelled} && r.billable == No)
  }

  ghost predicate SumsMean(records: seq<Record>, test: Record -> bool, s: Sums) {
    CountsMean(records, test, s) && UnknownsMean(records, test, s) && AmountsMean(records, test, s)
  }

  lemma CountStep(records: seq<Record>, test: Record -> bool)
    requires records != []
    ensures CountWhere(records, test) == CountWhere(records[..|records| - 1], test) + One(test(records[|records| - 1]))
  {
    var n: nat := |records| - 1;
    var front := records[..n];
    var before := set i: nat | i < n && test(front[i]);
    var all := set i: nat | i < |records| && test(records[i]);
    assert all == before + (if test(records[n]) then {n} else {});
  }

  lemma {:induction false} CountsAre(records: seq<Record>, test: Record -> bool)
    ensures CountsMean(records, test, Aggregate(records, test))
  {
    if records != [] {
      CountsAre(records[..|records| - 1], test);
      CountStep(records, test);
      CountStep(records, (r: Record) => test(r) && r.status == Succeeded);
      CountStep(records, (r: Record) => test(r) && r.status == Failed);
      CountStep(records, (r: Record) => test(r) && r.status == Cancelled);
      CountStep(records, (r: Record) => test(r) && r.status == Reserved);
    }
  }

  lemma {:induction false} UnknownsAre(records: seq<Record>, test: Record -> bool)
    ensures UnknownsMean(records, test, Aggregate(records, test))
  {
    if records != [] {
      UnknownsAre(records[..|records| - 1], test);
      CountStep(records, (r: Record) => test(r) && (r.inputTokens == None || r.outputTokens == None));
      CountStep(records, (r: Record) => test(r) && r.cost == None);
    }
  }

  lemma {:induction false} AmountsAre(records: seq<Record>, test: Record -> bool)
    ensures AmountsMean(records, test, Aggregate(records, test))
  {
    if records != [] {
      AmountsAre(records[..|records| - 1], test);
    }
  }

  /** Every column of an aggregate is the count or sum over the selected records that its name says. */
  lemma AggregateMeans(records: seq<Record>, test: Record -> bool)
    ensures SumsMean(records, test, Aggregate(records, test))
  {
    CountsAre(records, test);
    UnknownsAre(records, test);
    AmountsAre(records, test);
  }

  class Totals {
    var requests: int
    var succeeded: int
    var failed: int
    var cancelled: int
    var reserved: int
    var inputTokens: int
    var outputTokens: int
    var tokenUnknown: int
    var cost: int
    var costUnknown: int
    var committed: int

    function Value(): Sums
      reads this
    {
      Sums(requests, succeeded, failed, cancelled, reserved, inputTokens, outputTokens, tokenUnknown, cost, costUnknown, committed)
    }

    constructor FromRow(s: Sums)
      ensures Value() == s
    {
      requests, succeeded, failed, cancelled, reserved := s.requests, s.succeeded, s.failed, s.cancelled, s.reserved;
      inputTokens, outputTokens, tokenUnknown := s.inputTokens, s.outputTokens, s.tokenUnknown;
      cost, costUnknown, committed := s.cost, s.costUnknown, s.committed;
    }

    method Add(other: Totals)
      modifies this
      ensures Value() == Plus(old(Value()), old(other.Value()))
    {
      var s := other.Value();
      requests, succeeded, failed := requests + s.requests, succeeded + s.succeeded, failed + s.failed;
      cancelled, reserved := cancelled + s.cancelled, reserved + s.reserved;
      inputTokens, outputTokens := inputTokens + s.inputTokens, outputTokens + s.outputTokens;
      tokenUnknown, cost := tokenUnknown + s.tokenUnknown, cost + s.cost;
      costUnknown, committed := costUnknown + s.costUnknown, committed + s.committed;
    }

    method Subtract(other: Totals)
      modifies this
      ensures Value() == Minus(old(Value()), old(other.Value()))
    {
      var s := other.Value();
      requests, succeeded, failed := requests - s.requests, succeeded - s.succeeded, failed - s.failed;
      cancelled, reserved := cancelled - s.cancelled, reserved - s.reserved;
      inputTokens, outputTokens := inputTokens - s.inputTokens, outputTokens - s.outputTokens;
      tokenUnknown, cost := tokenUnknown - s.tokenUnknown, cost - s.cost;
      costUnknown, committed := costUnknown - s.costUnknown, committed - s.committed;
    }
  }

  // ── Groups ────────────────────────────────────────────────────────────

  /** GROUP BY: the distinct keys, in order of first appearance. */
  function Groups<K(==)>(records: seq<Record>, key: Record -> K): seq<K> {
    if records == [] then []
    else
      var front := Groups(records[..|records| - 1], key);
      var k := key(records[|records| - 1]);
      if k in front then front else front + [k]
  }

  function InGroup<K(==)>(key: Record -> K, k: K): Record -> bool {
    (r: Record) => key(r) == k
  }

  function InGroups<K(==)>(key: Record -> K, ks: seq<K>): Record -> bool {
    (r: Record) => key(r) in ks
  }

  function Everything(): Record -> bool {
    (r: Record) => true
  }

  /** The sum of the rows of some groups. */
  function SumGroups<K(==)>(records: seq<Record>, key: Record -> K, ks: seq<K>): Sums {
    if ks == [] then ZERO
    else Plus(SumGroups(records, key, ks[..|ks| - 1]), Aggregate(records, InGroup(key, ks[|ks| - 1])))
  }

  lemma {:induction false} GroupsSpec<K>(records: seq<Record>, key: Record -> K)
    ensures Sorting.Distinct(Groups(records, key))
    ensures forall r :: r in records ==> key(r) in Groups(records, key)
    ensures forall k :: k in Groups(records, key) ==> exists r :: r in records && key(r) == k
  {
    if records != [] {
      var front, last := records[..|records| - 1], records[|records| - 1];
      GroupsSpec(front, key);
      assert records == front + [last];
    }
  }

  /** Aggregates of disjoint selections add up. */
  lemma {:induction false} AggregateSplit(records: seq<Record>, p: Record -> bool, q: Record -> bool, either: Record -> bool)
    requires forall r :: r in records ==> !(p(r) && q(r)) && (either(r) <==> p(r) || q(r))
    ensures Aggregate(records, either) == Plus(Aggregate(records, p), Aggregate(records, q))
  {
    if records != [] {
      AggregateSplit(records[..|records| - 1], p, q, either);
      assert records[|records| - 1] in records;
    }
  }

  lemma {:induction false} AggregateAgrees(records: seq<Record>, p: Record -> bool, q: Record -> bool)
    requires forall r :: r in records ==> (p(r) <==> q(r))
    ensures Aggregate(records, p) == Aggregate(records, q)
  {
    if records != [] {
      AggregateAgrees(records[..|records| - 1], p, q);
      assert records[|records| - 1] in records;
    }
  }

  lemma {:induction false} AggregateNone(records: seq<Record>, p: Record -> bool)
    requires forall r :: r in records ==> !p(r)
    ensures Aggregate(records, p) == ZERO
  {
    if records != [] {
      AggregateNone(records[..|records| - 1], p);
      assert records[|records| - 1] in records;
    }
  }

  /** The rows of distinct groups sum to the aggregate of their records. */
  lemma {:induction false} SumGroupsIsAggregate<K(!new)>(records: seq<Record>, key: Record -> K, ks: seq<K>)
    requires Sorting.Distinct(ks)
    ensures SumGroups(records, key, ks) == Aggregate(records, InGroups(key, ks))
  {
    if ks == [] {
      AggregateNone(records, InGroups(key, ks));
    } else {
      var front, last := ks[..|ks| - 1], ks[|ks| - 1];
      SumGroupsIsAggregate(records, key, front);
      assert last !in front;
      forall r | r in records
        ensures InGroups(key, ks)(r) <==> InGroups(key, front)(r) || InGroup(key, last)(r)
        ensures !(InGroups(key, front)(r) && InGroup(key, last)(r))
      {
        LastMember(ks, key(r));
      }
      AggregateSplit(records, InGroups(key, front), InGroup(key, last), InGroups(key, ks));
    }
  }

  lemma LastMember<K>(ks: seq<K>, k: K)
    requires ks != []
    ensures k in ks <==> k in ks[..|ks| - 1] || k == ks[|ks| - 1]
  {
    assert ks == ks[..|ks| - 1] + [ks[|ks| - 1]];
  }

  /** All groups together are the totals, whatever they are grouped by. */
  lemma AllGroupsAreTotals<K(!new)>(records: seq<Record>, key: Record -> K)
    ensures SumGroups(records, key, Groups(records, key)) == Aggregate(records, Everything())
  {
    GroupsSpec(records, key);
    SumGroupsIsAggregate(records, key, Groups(records, key));
    AggregateAgrees(records, InGroups(key, Groups(records, key)), Everything());
  }

  // ── The breakdown by provider and model ───────────────────────────────

  datatype Pair = Pair(provider: string, model: string)

  function PairOf(): Record -> Pair {
    (r: Record) => Pair(r.provider, r.model)
  }

  const DAY := 86_400

  function DayOf(): Record -> int {
    (r: Record) => r.startedAt / DAY
  }

  /** The day rows, without any limit, add up to the totals. */
  lemma DaysAreTotals(records: seq<Record>)
    ensures SumGroups(records, DayOf(), Groups(records, DayOf())) == Aggregate(records, Everything())
    ensures forall r :: DayOf()(r) * 24 * 60 * 60 <= r.startedAt < (DayOf()(r) + 1) * 24 * 60 * 60
  {
    AllGroupsAreTotals(records, DayOf());
  }

  datatype Row = Row(pair: Pair, sums: Sums)

  predicate RowLe(a: Row, b: Row) {
    a.sums.requests > b.sums.requests ||
    (a.sums.requests == b.sums.requests &&
      (StringLess(a.pair.provider, b.pair.provider) ||
        (a.pair.provider == b.pair.provider && StringLe(a.pair.model, b.pair.model))))
  }

  function RowsOf(records: seq<Record>, pairs: seq<Pair>): (rows: seq<Row>)
    ensures |rows| == |pairs|
    ensures forall i :: 0 <= i < |pairs| ==> rows[i] == Row(pairs[i], Aggregate(records, InGroup(PairOf(), pairs[i])))
  {
    if pairs == [] then []
    else
      var last := pairs[|pairs| - 1];
      RowsOf(records, pairs[..|pairs| - 1]) + [Row(last, Aggregate(records, InGroup(PairOf(), last)))]
  }

  function PairsOf(rows: seq<Row>): (pairs: seq<Pair>)
    ensures |pairs| == |rows|
    ensures forall i :: 0 <= i < |rows| ==> pairs[i] == rows[i].pair
  {
    if rows == [] then [] else PairsOf(rows[..|rows| - 1]) + [rows[|rows| - 1].pair]
  }

  function SumRows(rows: seq<Row>): Sums {
    if rows == [] then ZERO else Plus(SumRows(rows[..|rows| - 1]), rows[|rows| - 1].sums)
  }

  function Limited(rows: seq<Row>): seq<Row> {
    if |rows| > BREAKDOWN_LIMIT then rows[..BREAKDOWN_LIMIT] else rows
  }

  /** The listed rows: most requests first, at most the limit. */
  function Listed(records: seq<Record>): seq<Row> {
    Limited(Sorting.Sort(RowsOf(records, Groups(records, PairOf())), RowLe))
  }

  function NotListed(records: seq<Record>): Record -> bool {
    var pairs := PairsOf(Listed(records));
    (r: Record) => PairOf()(r) !in pairs
  }

  lemma RowLeTotal()
    ensures Sorting.Total(RowLe)
  {
    forall a, b
      ensures RowLe(a, b) || RowLe(b, a)
    {
      StringLessTotal(a.pair.provider, b.pair.provider);
      StringLessTotal(a.pair.model, b.pair.model);
    }
    forall a, b, c | RowLe(a, b) && RowLe(b, c)
      ensures RowLe(a, c)
    {
      StringLessTotal(a.pair.provider, b.pair.provider);
      if StringLess(a.pair.provider, b.pair.provider) && StringLess(b.pair.provider, c.pair.provider) {
        StringLessTransitive(a.pair.provider, b.pair.provider, c.pair.provider);
      }
      if StringLe(a.pair.model, b.pair.model) && StringLe(b.pair.model, c.pair.model) {
        StringLeTransitive(a.pair.model, b.pair.model, c.pair.model);
      }
    }
  }

  ghost predicate RowsTrue(records: seq<Record>, rows: seq<Row>) {
    && Sorting.Distinct(PairsOf(rows))
    && forall i :: 0 <= i < |rows| ==> rows[i].sums == Aggregate(records, InGroup(PairOf(), rows[i].pair))
  }

  /** The listed rows belong to distinct groups and hold their aggregates. */
  lemma ListedTrue(records: seq<Record>)
    ensures RowsTrue(records, Listed(records))
    ensures |Groups(records, PairOf())| <= BREAKDOWN_LIMIT ==> |Listed(records)| == |Groups(records, PairOf())|
    ensures |Groups(records, PairOf())| > BREAKDOWN_LIMIT ==> |Listed(records)| == BREAKDOWN_LIMIT
    ensures forall p :: p in PairsOf(Listed(records)) ==> p in Groups(records, PairOf())
    ensures |Groups(records, PairOf())| <= BREAKDOWN_LIMIT ==> forall p :: p in Groups(records, PairOf()) ==> p in PairsOf(Listed(records))
  {
    var groups := Groups(records, PairOf());
    var rows := RowsOf(records, groups);
    var sorted := Sorting.Sort(rows, RowLe);
    GroupsSpec(records, PairOf());
    RowLeTotal();
    Sorting.SortSpec(rows, RowLe);
    Sorting.SortMembers(rows, RowLe);
    RowsDistinct(records, groups);
    Sorting.MultisetDistinct(rows, sorted);
    SortedRowsTrue(records, groups, sorted);
    if |groups| <= BREAKDOWN_LIMIT {
      forall p | p in groups
        ensures p in PairsOf(sorted)
      {
        var i :| 0 <= i < |groups| && groups[i] == p;
        assert rows[i] in sorted;
        var j :| 0 <= j < |sorted| && sorted[j] == rows[i];
        assert PairsOf(sorted)[j] == p;
      }
    }
  }

  lemma RowsDistinct(records: seq<Record>, groups: seq<Pair>)
    requires Sorting.Distinct(groups)
    ensures Sorting.Distinct(RowsOf(records, groups))
  {
  }

  lemma SortedRowsTrue(records: seq<Record>, groups: seq<Pair>, sorted: seq<Row>)
    requires Sorting.Distinct(sorted) && forall r :: r in sorted ==> r in RowsOf(records, groups)
    ensures RowsTrue(records, Limited(sorted))
    ensures forall p :: p in PairsOf(Limited(sorted)) ==> p in groups
  {
    var rows := Limited(sorted);
    forall i | 0 <= i < |rows|
      ensures rows[i].pair in groups && rows[i].sums == Aggregate(records, InGroup(PairOf(), rows[i].pair))
    {
      assert rows[i] in sorted;
    }
    forall i, j | 0 <= i < j < |rows|
      ensures rows[i].pair != rows[j].pair
    {
      assert sorted[i] != sorted[j];
    }
  }

  lemma {:induction false} SumRowsIsGroups(records: seq<Record>, rows: seq<Row>)
    requires forall i :: 0 <= i < |rows| ==> rows[i].sums == Aggregate(records, InGroup(PairOf(), rows[i].pair))
    ensures SumRows(rows) == SumGroups(records, PairOf(), PairsOf(rows))
  {
    if rows != [] {
      SumRowsIsGroups(records, rows[..|rows| - 1]);
      assert PairsOf(rows)[..|rows| - 1] == PairsOf(rows[..|rows| - 1]);
    }
  }

  /** The listed rows and the records of the omitted groups make up the totals, field by field. */
  lemma ListedPlusOther(records: seq<Record>)
    ensures Aggregate(records, Everything()) == Plus(SumRows(Listed(records)), Aggregate(records, NotListed(records)))
    ensures |Groups(records, PairOf())| <= BREAKDOWN_LIMIT ==> Aggregate(records, NotListed(records)) == ZERO
  {
    ListedTrue(records);
    var pairs := PairsOf(Listed(records));
    SumRowsIsGroups(records, Listed(records));
    SumGroupsIsAggregate(records, PairOf(), pairs);
    AggregateSplit(records, InGroups(PairOf(), pairs), NotListed(records), Everything());
    if |Groups(records, PairOf())| <= BREAKDOWN_LIMIT {
      GroupsSpec(records, PairOf());
      AggregateNone(records, NotListed(records));
    }
  }

  /** Of two groups, the one with more requests comes first; among equals the names decide at their first difference. */
  ghost predicate RowBefore(a: Row, b: Row) {
    || a.sums.requests > b.sums.requests
    || (a.sums.requests == b.sums.requests && NamesBefore(a.pair, b.pair))
  }

  ghost predicate NamesBefore(a: Pair, b: Pair) {
    || (exists n: nat :: DiffersBelowAt(a.provider, b.provider, n))
    || (a.provider == b.provider && exists n: nat :: DiffersBelowAt(a.model, b.model, n))
  }

  lemma RowLeIsBefore(a: Row, b: Row)
    requires RowLe(a, b) && a.pair != b.pair
    ensures RowBefore(a, b)
  {
    StringLessIff(a.pair.provider, b.pair.provider);
    StringLessIff(a.pair.model, b.pair.model);
    StringLessTotal(a.pair.model, b.pair.model);
  }

  /** The record is of this provider and model. */
  ghost function OfPair(p: Pair): Record -> bool {
    (r: Record) => r.provider == p.provider && r.model == p.model
  }

  ghost predicate RowMeans(records: seq<Record>, row: Row) {
    && SumsMean(records, OfPair(row.pair), row.sums)
    && exists r :: r in records && r.provider == row.pair.provider && r.model == row.pair.model
  }

  /** The rows are in order, and each is before every group that is not listed. */
  ghost predicate LargestFirst(records: seq<Record>, rows: seq<Row>) {
    && (forall i, j :: 0 <= i < j < |rows| ==> RowBefore(rows[i], rows[j]))
    && (forall i, row :: 0 <= i < |rows| && RowMeans(records, row) && row.pair !in PairsOf(rows) ==> RowBefore(rows[i], row))
  }

  lemma PairAgrees(records: seq<Record>, p: Pair)
    ensures SumsMean(records, OfPair(p), Aggregate(records, InGroup(PairOf(), p)))
    ensures Aggregate(records, InGroup(PairOf(), p)) == Aggregate(records, OfPair(p))
  {
    AggregateAgrees(records, InGroup(PairOf(), p), OfPair(p));
    AggregateMeans(records, OfPair(p));
  }

  lemma ListedMeans(records: seq<Record>)
    ensures forall i :: 0 <= i < |Listed(records)| ==> RowMeans(records, Listed(records)[i])
  {
    var rows := Listed(records);
    ListedTrue(records);
    GroupsSpec(records, PairOf());
    forall i | 0 <= i < |rows|
      ensures RowMeans(records, rows[i])
    {
      PairAgrees(records, rows[i].pair);
      assert PairsOf(rows)[i] == rows[i].pair && rows[i].pair in Groups(records, PairOf());
      var r :| r in records && PairOf()(r) == rows[i].pair;
    }
  }

  lemma SortedGroups(records: seq<Record>, sorted: seq<Row>)
    requires sorted == Sorting.Sort(RowsOf(records, Groups(records, PairOf())), RowLe)
    ensures |sorted| == |Groups(records, PairOf())|
    ensures forall i, j :: 0 <= i < j < |sorted| ==> RowBefore(sorted[i], sorted[j])
    ensures forall p :: p in Groups(records, PairOf()) ==> Row(p, Aggregate(records, InGroup(PairOf(), p))) in sorted
  {
    var groups := Groups(records, PairOf());
    var rows := RowsOf(records, groups);
    GroupsSpec(records, PairOf());
    RowLeTotal();
    Sorting.SortSpec(rows, RowLe);
    Sorting.SortMembers(rows, RowLe);
    RowsDistinct(records, groups);
    Sorting.MultisetDistinct(rows, sorted);
    forall i, j | 0 <= i < j < |sorted|
      ensures RowBefore(sorted[i], sorted[j])
    {
      assert sorted[i] != sorted[j] && sorted[i] in rows && sorted[j] in rows && RowLe(sorted[i], sorted[j]);
      RowLeIsBefore(sorted[i], sorted[j]);
    }
    forall p | p in groups
      ensures Row(p, Aggregate(records, InGroup(PairOf(), p))) in sorted
    {
      var i :| 0 <= i < |groups| && groups[i] == p;
      assert rows[i] in sorted;
    }
  }

  /** What is listed is the start of the order, and what is left out comes after it. */
  lemma ListedLargest(records: seq<Record>)
    ensures LargestFirst(records, Listed(records))
  {
    var groups := Groups(records, PairOf());
    var sorted := Sorting.Sort(RowsOf(records, groups), RowLe);
    var rows := Listed(records);
    SortedGroups(records, sorted);
    GroupsSpec(records, PairOf());
    assert rows == sorted[..|rows|];
    forall i, row | 0 <= i < |rows| && RowMeans(records, row) && row.pair !in PairsOf(rows)
      ensures RowBefore(rows[i], row)
    {
      UnlistedAfter(records, sorted, |rows|, i, row);
    }
  }

  lemma UnlistedAfter(records: seq<Record>, sorted: seq<Row>, n: nat, i: nat, row: Row)
    requires i < n <= |sorted| && RowMeans(records, row) && row.pair !in PairsOf(sorted[..n])
    requires forall i, j :: 0 <= i < j < |sorted| ==> RowBefore(sorted[i], sorted[j])
    requires forall p :: p in Groups(records, PairOf()) ==> Row(p, Aggregate(records, InGroup(PairOf(), p))) in sorted
    ensures RowBefore(sorted[i], row)
  {
    GroupsSpec(records, PairOf());
    OnlyRow(records, row);
    var r :| r in records && r.provider == row.pair.provider && r.model == row.pair.model;
    assert PairOf()(r) == row.pair;
    assert row in sorted;
    var j :| 0 <= j < |sorted| && sorted[j] == row;
    assert forall k :: 0 <= k < n ==> PairsOf(sorted[..n])[k] == sorted[k].pair;
  }

  lemma OnlyRow(records: seq<Record>, row: Row)
    requires RowMeans(records, row)
    ensures row.sums == Aggregate(records, InGroup(PairOf(), row.pair))
  {
    PairAgrees(records, row.pair);
  }

  /** Totals, the listed rows, and the rest as totals minus the listed rows: exactly the aggregate of the omitted groups. */
  method Report(records: seq<Record>) returns (totals: Sums, byPair: seq<Row>, omitted: nat, other: Option<Sums>)
    ensures totals == Aggregate(records, Everything()) && byPair == Listed(records)
    ensures omitted == |Groups(records, PairOf())| - |byPair|
    ensures other == if omitted > 0 then Some(Aggregate(records, NotListed(records))) else None
    ensures totals == Plus(SumRows(byPair), if other.Some? then other.value else ZERO)
    ensures |byPair| <= 100 && (omitted > 0 ==> |byPair| == 100)
    ensures ReportMeans(records, totals, byPair) && (other.Some? ==> SumsMean(records, NotIn(byPair), other.value))
  {
    totals := Aggregate(records, Everything());
    byPair := Listed(records);
    ListedTrue(records);
    ListedPlusOther(records);
    omitted, other := 0, None;
    if |byPair| == BREAKDOWN_LIMIT {
      omitted := |Groups(records, PairOf())| - |byPair|;
    }
    if omitted > 0 {
      var rest := Remainder(totals, byPair);
      other := Some(rest);
    }
    ReportHolds(records, totals, byPair, other);
  }

  lemma ReportHolds(records: seq<Record>, totals: Sums, rows: seq<Row>, other: Option<Sums>)
    requires totals == Aggregate(records, Everything()) && rows == Listed(records)
    requires other == None || other == Some(Aggregate(records, NotListed(records)))
    ensures ReportMeans(records, totals, rows) && (other.Some? ==> SumsMean(records, NotIn(rows), other.value))
    ensures |rows| <= 100
  {
    ReportIsRight(records);
    ListedTrue(records);
  }

  /** The record is of no listed group. */
  ghost function NotIn(rows: seq<Row>): Record -> bool {
    (r: Record) => Pair(r.provider, r.model) !in PairsOf(rows)
  }

  /** The totals and rows hold the counts and sums of their records, and the rows are the groups with the most requests. */
  ghost predicate ReportMeans(records: seq<Record>, totals: Sums, rows: seq<Row>) {
    && SumsMean(records, Everything(), totals) && LargestFirst(records, rows)
    && forall i :: 0 <= i < |rows| ==> RowMeans(records, rows[i])
  }

  lemma ReportIsRight(records: seq<Record>)
    ensures ReportMeans(records, Aggregate(records, Everything()), Listed(records))
    ensures SumsMean(records, NotIn(Listed(records)), Aggregate(records, NotListed(records)))
  {
    AggregateMeans(records, Everything());
    ListedMeans(records);
    ListedLargest(records);
    AggregateMeans(records, NotIn(Listed(records)));
    AggregateAgrees(records, NotIn(Listed(records)), NotListed(records));
  }

  method Remainder(totals: Sums, listed: seq<Row>) returns (rest: Sums)
    ensures totals == Plus(SumRows(listed), rest)
  {
    var other := new Totals.FromRow(ZERO);
    var all := new Totals.FromRow(totals);
    other.Add(all);
    for i := 0 to |listed|
      invariant totals == Plus(SumRows(listed[..i]), other.Value())
    {
      assert listed[..i + 1][..i] == listed[..i];
      var row := new Totals.FromRow(listed[i].sums);
      other.Subtract(row);
    }
    assert listed[..|listed|] == listed;
    rest := other.Value();
  }

  // ── Keyset pages ──────────────────────────────────────────────────────

  predicate NewerLe(a: Record, b: Record) {
    a.startedAt > b.startedAt || (a.startedAt == b.startedAt && a.id >= b.id)
  }

  ghost predicate DistinctIds(table: seq<Record>) {
    forall i, j :: 0 <= i < j < |table| ==> table[i].id != table[j].id
  }

  datatype Month = Month(start: int, end: int)

  predicate InMonth(m: Month, r: Record) {
    m.start <= r.startedAt < m.end
  }

  predicate Below(r: Record, cursor: Record) {
    r.startedAt < cursor.startedAt || (r.startedAt == cursor.startedAt && r.id < cursor.id)
  }

  function MonthTest(m: Month): Record -> bool {
    (r: Record) => InMonth(m, r)
  }

  function PageTest(m: Month, cursor: Record): Record -> bool {
    (r: Record) => InMonth(m, r) && Below(r, cursor)
  }

  function RecordById(table: seq<Record>, id: nat): (r: Option<Record>)
    ensures r.Some? ==> r.value in table && r.value.id == id
    ensures r.None? ==> forall x :: x in table ==> x.id != id
  {
    if table == [] then None
    else if table[|table| - 1].id == id then Some(table[|table| - 1])
    else RecordById(table[..|table| - 1], id)
  }

  datatype Page = Page(items: seq<Record>, nextBefore: Option<nat>) | CursorError

  function Take(rows: seq<Record>, n: nat): seq<Record> {
    if n < |rows| then rows[..n] else rows
  }

  function PageOf(rows: seq<Record>, limit: nat): Page
    requires limit > 0
  {
    var items := Take(rows, limit);
    Page(items, if |rows| > limit then Some(items[|items| - 1].id) else None)
  }

  /** One page; a cursor that names no record of the month is an error. */
  function UsageRecords(table: seq<Record>, m: Month, limit: nat, before: Option<nat>): Page
    requires limit > 0
  {
    if before.None? then PageOf(Take(Sorting.Sort(Sorting.Filter(table, MonthTest(m)), NewerLe), limit + 1), limit)
    else
      var cursor := RecordById(table, before.value);
      if cursor.None? || !InMonth(m, cursor.value) then CursorError
      else PageOf(Take(Sorting.Sort(Sorting.Filter(table, PageTest(m, cursor.value)), NewerLe), limit + 1), limit)
  }

  /** All records of the month, newest first. */
  function MonthRecords(table: seq<Record>, m: Month): seq<Record> {
    Sorting.Sort(Sorting.Filter(table, MonthTest(m)), NewerLe)
  }

  lemma NewerLeTotal()
    ensures Sorting.Total(NewerLe)
  {
  }

  lemma MonthRecordsSpec(table: seq<Record>, m: Month)
    requires DistinctIds(table)
    ensures Sorting.Sorted(MonthRecords(table, m), NewerLe) && DistinctIds(MonthRecords(table, m))
    ensures forall r :: r in MonthRecords(table, m) <==> r in table && InMonth(m, r)
    ensures multiset(MonthRecords(table, m)) == multiset(Sorting.Filter(table, MonthTest(m)))
  {
    NewerLeTotal();
    var rows := Sorting.Filter(table, MonthTest(m));
    Sorting.SortSpec(rows, NewerLe);
    Sorting.SortMembers(rows, NewerLe);
    Sorting.FilterMembers(table, MonthTest(m));
    TableDistinct(table);
    Sorting.FilterDistinct(table, MonthTest(m));
    Sorting.MultisetDistinct(rows, MonthRecords(table, m));
    MembersDistinctIds(table, MonthRecords(table, m));
  }

  lemma TableDistinct(table: seq<Record>)
    requires DistinctIds(table)
    ensures Sorting.Distinct(table)
  {
  }

  lemma SameId(table: seq<Record>, a: Record, b: Record)
    requires DistinctIds(table) && a in table && b in table && a.id == b.id
    ensures a == b
  {
    var i :| 0 <= i < |table| && table[i] == a;
    var j :| 0 <= j < |table| && table[j] == b;
    SameIndex(table, i, j);
  }

  lemma SameIndex(table: seq<Record>, i: nat, j: nat)
    requires DistinctIds(table) && i < |table| && j < |table| && table[i].id == table[j].id
    ensures i == j
  {
  }

  lemma MembersDistinctIds(table: seq<Record>, rows: seq<Record>)
    requires DistinctIds(table) && Sorting.Distinct(rows) && forall r :: r in rows ==> r in table
    ensures DistinctIds(rows)
  {
    forall i, j | 0 <= i < j < |rows|
      ensures rows[i].id != rows[j].id
    {
      if rows[i].id == rows[j].id {
        SameId(table, rows[i], rows[j]);
      }
    }
  }

  /** The rows below the i-th record of the list are the rest of the list. */
  lemma RowsBelow(table: seq<Record>, m: Month, i: nat)
    requires DistinctIds(table) && i < |MonthRecords(table, m)|
    ensures Sorting.Sort(Sorting.Filter(table, PageTest(m, MonthRecords(table, m)[i])), NewerLe) == MonthRecords(table, m)[i + 1..]
  {
    var all := MonthRecords(table, m);
    var cursor, rest := all[i], all[i + 1..];
    var found := Sorting.Filter(table, PageTest(m, cursor));
    MonthRecordsSpec(table, m);
    NewerLeTotal();
    Sorting.SortSpec(found, NewerLe);
    Sorting.FilterMembers(table, PageTest(m, cursor));
    TableDistinct(table);
    Sorting.FilterDistinct(table, PageTest(m, cursor));
    RestIsBelow(all, i);
    Sorting.SameMembers(found, rest);
    forall x, y | x in rest && y in rest && NewerLe(x, y) && NewerLe(y, x)
      ensures x == y
    {
      SameId(all, x, y);
    }
    Sorting.SortedUnique(rest, Sorting.Sort(found, NewerLe), NewerLe);
  }

  lemma RestIsBelow(all: seq<Record>, i: nat)
    requires Sorting.Sorted(all, NewerLe) && DistinctIds(all) && i < |all|
    ensures forall r :: r in all[i + 1..] <==> r in all && Below(r, all[i])
    ensures Sorting.Distinct(all[i + 1..]) && Sorting.Sorted(all[i + 1..], NewerLe)
  {
    forall r | r in all && Below(r, all[i])
      ensures r in all[i + 1..]
    {
      var j :| 0 <= j < |all| && all[j] == r;
      assert j < i ==> NewerLe(all[j], all[i]);
      assert all[i + 1..][j - i - 1] == r;
    }
    forall r | r in all[i + 1..]
      ensures r in all && Below(r, all[i])
    {
      var j :| 0 <= j < |all| - i - 1 && all[i + 1..][j] == r;
      assert all[i + 1 + j] == r && NewerLe(all[i], all[i + 1 + j]);
    }
  }

  /** A page after the first i records holds the next ones, and points at its last if more follow. */
  lemma PageAfter(table: seq<Record>, m: Month, limit: nat, i: nat)
    requires DistinctIds(table) && limit > 0 && i <= |MonthRecords(table, m)|
    ensures var all := MonthRecords(table, m);
      UsageRecords(table, m, limit, if i == 0 then None else Some(all[i - 1].id)) == PageOf(Take(all[i..], limit + 1), limit)
  {
    if i > 0 {
      PageAtCursor(table, m, limit, i);
    } else {
      assert MonthRecords(table, m)[0..] == MonthRecords(table, m);
    }
  }

  lemma PageAtCursor(table: seq<Record>, m: Month, limit: nat, i: nat)
    requires DistinctIds(table) && limit > 0 && 0 < i <= |MonthRecords(table, m)|
    ensures var all := MonthRecords(table, m);
      UsageRecords(table, m, limit, Some(all[i - 1].id)) == PageOf(Take(all[i..], limit + 1), limit)
  {
    CursorFound(table, m, i - 1);
    RowsBelow(table, m, i - 1);
    CursorPage(table, m, limit, MonthRecords(table, m)[i - 1], MonthRecords(table, m)[i..]);
  }

  lemma CursorFound(table: seq<Record>, m: Month, i: nat)
    requires DistinctIds(table) && i < |MonthRecords(table, m)|
    ensures var cursor := MonthRecords(table, m)[i];
      RecordById(table, cursor.id) == Some(cursor) && InMonth(m, cursor)
  {
    var all := MonthRecords(table, m);
    MonthRecordsSpec(table, m);
    assert all[i] in all;
    SameId(table, RecordById(table, all[i].id).value, all[i]);
  }

  lemma CursorPage(table: seq<Record>, m: Month, limit: nat, cursor: Record, rows: seq<Record>)
    requires limit > 0 && RecordById(table, cursor.id) == Some(cursor) && InMonth(m, cursor)
    requires rows == Sorting.Sort(Sorting.Filter(table, PageTest(m, cursor)), NewerLe)
    ensures UsageRecords(table, m, limit, Some(cursor.id)) == PageOf(Take(rows, limit + 1), limit)
  {
  }

  /** Following next_before from the first page lists every record of the month once, newest first, and ends. */
  method FollowPages(table: seq<Record>, m: Month, limit: nat) returns (listed: seq<Record>)
    requires DistinctIds(table) && limit > 0
    ensures Sorting.Sorted(listed, NewerLe) && DistinctIds(listed)
    ensures multiset(listed) == multiset(Sorting.Filter(table, MonthTest(m)))
    ensures forall r :: r in listed <==> r in table && m.start <= r.startedAt < m.end
    ensures forall i, j :: 0 <= i < j < |listed| ==> IsNewer(listed[i], listed[j])
  {
    ghost var all := MonthRecords(table, m);
    MonthRecordsSpec(table, m);
    FirstPage(table, m, limit);
    var page := UsageRecords(table, m, limit, None);
    listed := page.items;
    var before := page.nextBefore;
    while before.Some?
      invariant Following(all, listed, before)
      decreases |all| - |listed|
    {
      NextPage(table, m, limit, listed, before);
      page := UsageRecords(table, m, limit, before);
      listed := listed + page.items;
      before := page.nextBefore;
    }
    FollowedAll(all, listed, before);
    NewestFirst(all);
  }

  /** a started later, or at the same time and has the larger id. */
  predicate IsNewer(a: Record, b: Record) {
    b.startedAt < a.startedAt || (b.startedAt == a.startedAt && b.id < a.id)
  }

  lemma NewestFirst(all: seq<Record>)
    requires Sorting.Sorted(all, NewerLe) && DistinctIds(all)
    ensures forall i, j :: 0 <= i < j < |all| ==> IsNewer(all[i], all[j])
  {
    assert forall i, j :: 0 <= i < j < |all| ==> NewerLe(all[i], all[j]) && all[i].id != all[j].id;
  }

  /** A cursor is refused exactly when no record of the month has its id. */
  lemma CursorRefusedIff(table: seq<Record>, m: Month, limit: nat, before: nat)
    requires DistinctIds(table) && limit > 0
    ensures UsageRecords(table, m, limit, Some(before)) == CursorError <==>
      !exists r :: r in table && r.id == before && m.start <= r.startedAt < m.end
  {
    var cursor := RecordById(table, before);
    if r :| r in table && r.id == before && m.start <= r.startedAt < m.end {
      SameId(table, r, cursor.value);
    }
  }

  lemma FollowedAll(all: seq<Record>, listed: seq<Record>, before: Option<nat>)
    requires Following(all, listed, before) && before.None?
    ensures listed == all
  {
    assert all[..|all|] == all;
  }

  /** The first records are listed, and the cursor names the last of them if more follow. */
  ghost predicate Following(all: seq<Record>, listed: seq<Record>, before: Option<nat>) {
    && |listed| <= |all| && listed == all[..|listed|]
    && (if |listed| < |all| then |listed| > 0 && before == Some(all[|listed| - 1].id) else before == None)
  }

  lemma FirstPage(table: seq<Record>, m: Month, limit: nat)
    requires DistinctIds(table) && limit > 0
    ensures var page := UsageRecords(table, m, limit, None);
      page.Page? && Following(MonthRecords(table, m), page.items, page.nextBefore)
  {
    var all := MonthRecords(table, m);
    PageAfter(table, m, limit, 0);
    PageItems(all, 0, limit);
    assert all[..0] == [];
  }

  lemma NextPage(table: seq<Record>, m: Month, limit: nat, listed: seq<Record>, before: Option<nat>)
    requires DistinctIds(table) && limit > 0 && Following(MonthRecords(table, m), listed, before) && before.Some?
    ensures var page := UsageRecords(table, m, limit, before);
      && page.Page? && Following(MonthRecords(table, m), listed + page.items, page.nextBefore)
      && |listed| < |listed + page.items|
  {
    var all := MonthRecords(table, m);
    PageAfter(table, m, limit, |listed|);
    PageItems(all, |listed|, limit);
  }

  lemma PageItems(all: seq<Record>, i: nat, limit: nat)
    requires i <= |all| && limit > 0
    ensures var page := PageOf(Take(all[i..], limit + 1), limit);
      var stop := i + |page.items|;
      && page.Page? && stop <= |all| && all[..i] + page.items == all[..stop]
      && (i < |all| ==> stop > i)
      && page.nextBefore == if stop < |all| then Some(all[stop - 1].id) else None
  {
  }
}
