/** FIRST TLP 2.0 markings: the effective marking computed in SQL, and the destination gate. */
module Tlp {
  import opened StringOrder
  import opened Wrappers

  datatype Marking = Clear | Green | Amber | AmberStrict | Red

  /** An input to the effective marking; None is SQL NULL, "Unspecified". */
  type Input = Option<Marking>

  const UNSPECIFIED := "unspecified"
  const EXTERNAL_AI := "external_ai"

  // The rank table everything else rests on.
  function Rank(m: Marking): nat {
    match m
    case Clear => 0
    case Green => 1
    case Amber => 2
    case AmberStrict => 3
    case Red => 4
  }

  function Token(m: Marking): string {
    match m
    case Clear => "clear"
    case Green => "green"
    case Amber => "amber"
    case AmberStrict => "amber+strict"
    case Red => "red"
  }

  function ParseToken(s: string): Option<Marking> {
    if s == "clear" then Some(Clear)
    else if s == "green" then Some(Green)
    else if s == "amber" then Some(Amber)
    else if s == "amber+strict" then Some(AmberStrict)
    else if s == "red" then Some(Red)
    else None
  }

  /** The column value that stores an input. */
  function Stored(t: Input): Option<string> {
    match t
    case None => None
    case Some(m) => Some(Token(m))
  }

  // ── Changing one marking ──────────────────────────────────────────────

  predicate IsDowngrade(old_: Input, new_: Input) {
    old_.Some? && (new_.None? || Rank(new_.value) < Rank(old_.value))
  }

  function MoreRestrictive(old_: Input, new_: Input): Input {
    if old_.None? then new_
    else if new_.None? then old_
    else if Rank(new_.value) > Rank(old_.value) then new_
    else old_
  }

  /** Merging manual markings is a semilattice join that downgrades neither operand, and the least such marking. */
  lemma MoreRestrictiveIsJoin(a: Input, b: Input, c: Input)
    ensures !IsDowngrade(a, MoreRestrictive(a, b)) && !IsDowngrade(b, MoreRestrictive(a, b))
    ensures !IsDowngrade(a, c) && !IsDowngrade(b, c) ==> !IsDowngrade(MoreRestrictive(a, b), c)
    ensures MoreRestrictive(a, b) == MoreRestrictive(b, a)
    ensures MoreRestrictive(a, MoreRestrictive(b, c)) == MoreRestrictive(MoreRestrictive(a, b), c)
    ensures MoreRestrictive(a, a) == a
  {
  }

  // ── The SQL expression for the effective marking ──────────────────────

  // MAX and GREATEST compare strings lexicographically.
  function StringMax(a: string, b: string): string {
    if StringLess(a, b) then b else a
  }

  function RankDigit(m: Marking): string {
    match m
    case Clear => "0"
    case Green => "1"
    case Amber => "2"
    case AmberStrict => "3"
    case Red => "4"
  }

  /** The marking prefixed with its rank digit; Unspecified is the empty string. */
  function Sortable(t: Input): string {
    match t
    case None => ""
    case Some(m) => RankDigit(m) + Token(m)
  }

  /** What the policy knows about one observable: the marking of each feed and report it has, and its own columns. */
  datatype Observable = Observable(feeds: seq<Input>, reports: seq<Input>, manual: Input, override_: Input)

  /** A row of the outer join. None means the joined row is absent; Some(None) is a present row whose marking is NULL. */
  datatype JoinRow = JoinRow(feed: Option<Input>, report: Option<Input>)

  function Column(side: Option<Input>): Input {
    if side.Some? then side.value else None
  }

  /** One side of an outer join: a single absent row when there is nothing to join with. */
  function OuterSide(side: seq<Input>): (rows: seq<Option<Input>>)
    ensures rows != []
  {
    if side == [] then [None] else seq(|side|, i requires 0 <= i < |side| => Some(side[i]))
  }

  function CrossOne(f: Option<Input>, reports: seq<Option<Input>>): (rows: seq<JoinRow>)
    ensures |rows| == |reports|
    ensures forall k :: 0 <= k < |rows| ==> rows[k] == JoinRow(f, reports[k])
  {
    seq(|reports|, k requires 0 <= k < |reports| => JoinRow(f, reports[k]))
  }

  function Cross(feeds: seq<Option<Input>>, reports: seq<Option<Input>>): seq<JoinRow> {
    if feeds == [] then [] else CrossOne(feeds[0], reports) + Cross(feeds[1..], reports)
  }

  function JoinRows(o: Observable): seq<JoinRow> {
    Cross(OuterSide(o.feeds), OuterSide(o.reports))
  }

  function RowHighest(r: JoinRow, manual: Input): string {
    StringMax(StringMax(Sortable(Column(r.feed)), Sortable(Column(r.report))), Sortable(manual))
  }

  function RowUnspecified(r: JoinRow, manual: Input): nat {
    if r.feed == Some(None) then 1
    else if r.report == Some(None) then 1
    else if manual.None? && r.feed.None? && r.report.None? then 1
    else 0
  }

  function MaxHighest(rows: seq<JoinRow>, manual: Input): string
    requires rows != []
  {
    if |rows| == 1 then RowHighest(rows[0], manual)
    else StringMax(RowHighest(rows[0], manual), MaxHighest(rows[1..], manual))
  }

  function MaxUnspecified(rows: seq<JoinRow>, manual: Input): nat
    requires rows != []
  {
    if |rows| == 1 then RowUnspecified(rows[0], manual)
    else
      var first, rest := RowUnspecified(rows[0], manual), MaxUnspecified(rows[1..], manual);
      if first < rest then rest else first
  }

  lemma CrossNotEmpty(feeds: seq<Option<Input>>, reports: seq<Option<Input>>)
    requires feeds != [] && reports != []
    ensures Cross(feeds, reports) != []
  {
  }

  /** The CASE expression around the aggregates, and the override on top of it. */
  function EffectiveSql(o: Observable): Option<string> {
    if o.override_.Some? then Stored(o.override_)
    else
      CrossNotEmpty(OuterSide(o.feeds), OuterSide(o.reports));
      Computed(MaxHighest(JoinRows(o), o.manual), MaxUnspecified(JoinRows(o), o.manual))
  }

  function Computed(highest: string, unspecified: nat): Option<string> {
    if unspecified == 1 && StringLess(highest, "2") then None
    else if |highest| <= 1 then None
    else Some(highest[1..])
  }

  // ── The specification: a join in a linear order ───────────────────────

  /** CLEAR < GREEN < Unspecified < AMBER < AMBER+STRICT < RED. */
  function Level(t: Input): nat {
    match t
    case None => 2
    case Some(m) => if Rank(m) < 2 then Rank(m) else Rank(m) + 1
  }

  /** The manual marking is an input only when it is set or is all there is. */
  function Inputs(o: Observable): (inputs: seq<Input>)
    ensures inputs != []
  {
    o.feeds + o.reports + (if o.manual.Some? || o.feeds + o.reports == [] then [o.manual] else [])
  }

  ghost predicate IsJoin(j: Input, inputs: seq<Input>) {
    j in inputs && forall i :: 0 <= i < |inputs| ==> Level(inputs[i]) <= Level(j)
  }

  function Join(inputs: seq<Input>): (j: Input)
    requires inputs != []
    ensures IsJoin(j, inputs)
  {
    if |inputs| == 1 then inputs[0]
    else
      var rest := Join(inputs[1..]);
      if Level(rest) < Level(inputs[0]) then inputs[0] else rest
  }

  function Effective(o: Observable): Input {
    if o.override_.Some? then o.override_ else Join(Inputs(o))
  }

  /** The strictest of some markings; a missing one counts as stricter than GREEN and less strict than AMBER. */
  ghost predicate IsStrictest(t: Input, inputs: seq<Input>) {
    if Some(Red) in inputs then t == Some(Red)
    else if Some(AmberStrict) in inputs then t == Some(AmberStrict)
    else if Some(Amber) in inputs then t == Some(Amber)
    else if None in inputs then t == None
    else if Some(Green) in inputs then t == Some(Green)
    else t == Some(Clear)
  }

  /** An override decides; without one it is the strictest of the feeds' and reports' markings and the manual one if it is set,
      and nothing at all is unspecified. */
  lemma EffectiveExact(o: Observable)
    ensures o.override_.Some? ==> Effective(o) == o.override_
    ensures o.override_.None? && o.manual.Some? ==> IsStrictest(Effective(o), o.feeds + o.reports + [o.manual])
    ensures o.override_.None? && o.manual.None? && o.feeds + o.reports != [] ==> IsStrictest(Effective(o), o.feeds + o.reports)
    ensures o.override_.None? && o.manual.None? && o.feeds + o.reports == [] ==> Effective(o) == None
  {
    if o.override_.None? {
      JoinIsStrictest(Effective(o), Inputs(o));
      assert o.feeds + o.reports + [] == o.feeds + o.reports;
    }
  }

  lemma JoinIsStrictest(j: Input, inputs: seq<Input>)
    requires IsJoin(j, inputs)
    ensures IsStrictest(j, inputs)
  {
    forall t | t in inputs
      ensures Level(t) <= Level(j)
    {
      var i :| 0 <= i < |inputs| && inputs[i] == t;
    }
  }

  /** Two manual markings merge to the strictest that is set. */
  lemma MoreRestrictiveExact(a: Input, b: Input)
    ensures a.Some? && b.Some? ==> IsStrictest(MoreRestrictive(a, b), [a, b])
    ensures a.None? ==> MoreRestrictive(a, b) == b
    ensures b.None? ==> MoreRestrictive(a, b) == a
  {
    if a.Some? && b.Some? {
      JoinIsStrictest(MoreRestrictive(a, b), [a, b]);
    }
  }

  lemma LevelInjective(a: Input, b: Input)
    requires Level(a) == Level(b)
    ensures a == b
  {
  }

  lemma JoinUnique(a: Input, inputs: seq<Input>)
    requires inputs != [] && IsJoin(a, inputs)
    ensures a == Join(inputs)
  {
    LevelInjective(a, Join(inputs));
  }

  // ── String MAX picks the highest rank ─────────────────────────────────

  function SortRank(t: Input): nat {
    match t
    case None => 0
    case Some(m) => Rank(m) + 1
  }

  function Best(a: Input, b: Input): Input {
    if SortRank(a) < SortRank(b) then b else a
  }

  lemma SortableFirst(t: Input)
    ensures t.None? ==> Sortable(t) == ""
    ensures t.Some? ==> |Sortable(t)| > 1 && Sortable(t)[1..] == Token(t.value)
    ensures t.Some? ==> Sortable(t)[0] as int == '0' as int + Rank(t.value)
  {
  }

  /** The order of the prefixed strings is the order of the ranks, with Unspecified lowest. */
  lemma SortableOrder(a: Input, b: Input)
    ensures StringLess(Sortable(a), Sortable(b)) <==> SortRank(a) < SortRank(b)
    ensures StringMax(Sortable(a), Sortable(b)) == Sortable(Best(a, b))
    ensures StringLess(Sortable(a), "2") <==> SortRank(a) < 3
  {
    SortableFirst(a);
    SortableFirst(b);
    if a.Some? && a == b {
      StringLessIrreflexive(Sortable(a));
    }
  }

  /** x is the best marking any row shows. */
  ghost predicate BestOfRows(x: Input, rows: seq<JoinRow>, manual: Input) {
    && (x == manual || exists k :: 0 <= k < |rows| && (x == Column(rows[k].feed) || x == Column(rows[k].report)))
    && SortRank(manual) <= SortRank(x)
    && forall k :: 0 <= k < |rows| ==> SortRank(Column(rows[k].feed)) <= SortRank(x) && SortRank(Column(rows[k].report)) <= SortRank(x)
  }

  lemma {:induction false} MaxHighestIsBest(rows: seq<JoinRow>, manual: Input) returns (x: Input)
    requires rows != []
    ensures MaxHighest(rows, manual) == Sortable(x) && BestOfRows(x, rows, manual)
  {
    var f, r := Column(rows[0].feed), Column(rows[0].report);
    SortableOrder(f, r);
    SortableOrder(Best(f, r), manual);
    x := Best(Best(f, r), manual);
    if |rows| > 1 {
      var y := MaxHighestIsBest(rows[1..], manual);
      SortableOrder(x, y);
      x := Best(x, y);
      assert forall k :: 1 <= k < |rows| ==> rows[k] == rows[1..][k - 1];
    }
  }

  lemma {:induction false} MaxUnspecifiedIsExists(rows: seq<JoinRow>, manual: Input)
    requires rows != []
    ensures MaxUnspecified(rows, manual) <= 1
    ensures MaxUnspecified(rows, manual) == 1 <==> exists k :: 0 <= k < |rows| && RowUnspecified(rows[k], manual) == 1
  {
    if |rows| > 1 {
      MaxUnspecifiedIsExists(rows[1..], manual);
      assert forall k :: 1 <= k < |rows| ==> rows[k] == rows[1..][k - 1];
    }
  }

  /** The outer join holds exactly the pairs of a feed side and a report side. */
  lemma {:induction false} CrossContains(feeds: seq<Option<Input>>, reports: seq<Option<Input>>, f: Option<Input>, r: Option<Input>)
    ensures JoinRow(f, r) in Cross(feeds, reports) <==> f in feeds && r in reports
  {
    if feeds != [] {
      CrossContains(feeds[1..], reports, f, r);
      var head := CrossOne(feeds[0], reports);
      assert JoinRow(f, r) in head <==> f == feeds[0] && r in reports by {
        if f == feeds[0] && r in reports {
          var k :| 0 <= k < |reports| && reports[k] == r;
          assert head[k] == JoinRow(f, r);
        }
      }
      assert f in feeds <==> f == feeds[0] || f in feeds[1..];
    }
  }

  lemma OuterSideContains(side: seq<Input>, t: Input)
    ensures Some(t) in OuterSide(side) <==> t in side
    ensures None in OuterSide(side) <==> side == []
  {
    if t in side {
      var i :| 0 <= i < |side| && side[i] == t;
      assert OuterSide(side)[i] == Some(t);
    }
  }

  lemma RowsShowInputs(o: Observable, t: Input)
    ensures t in o.feeds ==> exists r :: JoinRow(Some(t), r) in JoinRows(o)
    ensures t in o.reports ==> exists f :: JoinRow(f, Some(t)) in JoinRows(o)
  {
    OuterSideContains(o.feeds, t);
    OuterSideContains(o.reports, t);
    var fs, rs := OuterSide(o.feeds), OuterSide(o.reports);
    CrossContains(fs, rs, Some(t), rs[0]);
    CrossContains(fs, rs, fs[0], Some(t));
  }

  lemma RowsShowOnlyInputs(o: Observable, row: JoinRow)
    requires row in JoinRows(o)
    ensures row.feed.Some? ==> row.feed.value in o.feeds
    ensures row.report.Some? ==> row.report.value in o.reports
    ensures row.feed.None? <==> o.feeds == []
    ensures row.report.None? <==> o.reports == []
  {
    CrossContains(OuterSide(o.feeds), OuterSide(o.reports), row.feed, row.report);
    OuterSideContains(o.feeds, Column(row.feed));
    OuterSideContains(o.reports, Column(row.report));
  }

  lemma UnspecifiedIffNullInput(o: Observable)
    requires JoinRows(o) != []
    ensures MaxUnspecified(JoinRows(o), o.manual) == 1 <==> None in Inputs(o)
  {
    var rows := JoinRows(o);
    MaxUnspecifiedIsExists(rows, o.manual);
    if None in Inputs(o) {
      RowsShowInputs(o, None);
      if None in o.feeds {
        var r :| JoinRow(Some(None), r) in rows;
        assert RowUnspecified(JoinRow(Some(None), r), o.manual) == 1;
      } else if None in o.reports {
        var f :| JoinRow(f, Some(None)) in rows;
        assert RowUnspecified(JoinRow(f, Some(None)), o.manual) == 1;
      } else {
        RowsShowOnlyInputs(o, rows[0]);
        assert RowUnspecified(rows[0], o.manual) == 1;
      }
    }
    if k :| 0 <= k < |rows| && RowUnspecified(rows[k], o.manual) == 1 {
      RowsShowOnlyInputs(o, rows[k]);
    }
  }

  lemma BestIsHighestInput(o: Observable, x: Input)
    requires BestOfRows(x, JoinRows(o), o.manual)
    ensures forall t :: t in Inputs(o) ==> SortRank(t) <= SortRank(x)
    ensures x.Some? ==> x in Inputs(o)
  {
    var rows := JoinRows(o);
    forall t | t in Inputs(o)
      ensures SortRank(t) <= SortRank(x)
    {
      RowsShowInputs(o, t);
      if t in o.feeds {
        var r :| JoinRow(Some(t), r) in rows;
        var k :| 0 <= k < |rows| && rows[k] == JoinRow(Some(t), r);
      } else if t in o.reports {
        var f :| JoinRow(f, Some(t)) in rows;
        var k :| 0 <= k < |rows| && rows[k] == JoinRow(f, Some(t));
      }
    }
    if x.Some? && x != o.manual {
      var k :| 0 <= k < |rows| && (x == Column(rows[k].feed) || x == Column(rows[k].report));
      RowsShowOnlyInputs(o, rows[k]);
    }
  }

  lemma ComputedIsJoin(inputs: seq<Input>, x: Input, unspecified: nat)
    requires inputs != [] && unspecified <= 1
    requires unspecified == 1 <==> None in inputs
    requires forall t :: t in inputs ==> SortRank(t) <= SortRank(x)
    requires x.Some? ==> x in inputs
    ensures Computed(Sortable(x), unspecified) == Stored(Join(inputs))
  {
    SortableFirst(x);
    SortableOrder(x, None);
    var result := if None in inputs && SortRank(x) < 3 then None else x;
    assert inputs[0] in inputs;
    forall i | 0 <= i < |inputs|
      ensures Level(inputs[i]) <= Level(result)
    {
      assert inputs[i] in inputs;
    }
    JoinUnique(result, inputs);
  }

  /** The SQL expression, for any numbers of feeds and reports, stores the join of the inputs. */
  lemma EffectiveSqlIsJoin(o: Observable)
    ensures EffectiveSql(o) == Stored(Effective(o))
  {
    if o.override_.None? {
      var rows := JoinRows(o);
      CrossNotEmpty(OuterSide(o.feeds), OuterSide(o.reports));
      var x := MaxHighestIsBest(rows, o.manual);
      UnspecifiedIffNullInput(o);
      BestIsHighestInput(o, x);
      MaxUnspecifiedIsExists(rows, o.manual);
      ComputedIsJoin(Inputs(o), x, MaxUnspecified(rows, o.manual));
    }
  }

  // ── Destination gate ──────────────────────────────────────────────────

  function Allowed(destination: string): Option<set<Input>> {
    if destination == "internal" then Some({None, Some(Clear), Some(Green), Some(Amber), Some(AmberStrict)})
    else if destination == "community" then Some({Some(Clear), Some(Green)})
    else if destination == "public" then Some({Some(Clear)})
    else if destination == EXTERNAL_AI then Some({Some(Clear), Some(Green)})
    else None
  }

  /** Whether a column value may leave; a value that is no marking never may. */
  predicate IsShareable(effective: Option<string>, destination: string) {
    match Allowed(destination)
    case None => false
    case Some(allowed) =>
      match effective
      case None => None in allowed
      case Some(s) => ParseToken(s).Some? && ParseToken(s) in allowed
  }

  function MarkingKey(t: Input): string {
    if t.None? then UNSPECIFIED else Token(t.value)
  }

  /** The SQL form: a NULL-safe membership test on tokens. */
  predicate ShareableClause(effective: Option<string>, destination: string) {
    match Allowed(destination)
    case None => false
    case Some(allowed) =>
      var token := if effective.None? then UNSPECIFIED else effective.value;
      exists t :: t in allowed && MarkingKey(t) == token
  }

  lemma ParseTokenInverse(m: Marking, s: string)
    ensures ParseToken(Token(m)) == Some(m)
    ensures ParseToken(s) == Some(m) <==> s == Token(m)
  {
  }

  lemma MarkingKeyInjective(a: Input, b: Input)
    requires MarkingKey(a) == MarkingKey(b)
    ensures a == b
  {
    if a.Some? && b.Some? {
      ParseTokenInverse(a.value, Token(a.value));
      ParseTokenInverse(b.value, Token(b.value));
    }
  }

  /** The two gates agree except on the column value "unspecified", which the schema excludes. */
  lemma GatesAgree(effective: Option<string>, destination: string)
    ensures (IsShareable(effective, destination) <==> ShareableClause(effective, destination))
       <==> !(effective == Some(UNSPECIFIED) && destination == "internal")
  {
    var allowed := Allowed(destination);
    if allowed.Some? {
      assert MarkingKey(None) == UNSPECIFIED;
      if effective.None? {
        assert ShareableClause(effective, destination) <==> None in allowed.value by {
          if t :| t in allowed.value && MarkingKey(t) == UNSPECIFIED {
            MarkingKeyInjective(t, None);
          }
        }
      } else {
        var parsed := ParseToken(effective.value);
        if parsed.Some? {
          assert MarkingKey(parsed) == effective.value;
          if t :| t in allowed.value && MarkingKey(t) == effective.value {
            MarkingKeyInjective(t, parsed);
          }
        } else if t :| t in allowed.value && MarkingKey(t) == effective.value {
          assert t.None?;
        }
      }
    }
  }

  predicate MayLeave(o: Observable, destination: string) {
    IsShareable(EffectiveSql(o), destination)
  }

  lemma MayLeaveIffAllowed(o: Observable, destination: string)
    ensures MayLeave(o, destination) <==> Allowed(destination).Some? && Effective(o) in Allowed(destination).value
  {
    EffectiveSqlIsJoin(o);
    if Effective(o).Some? {
      ParseTokenInverse(Effective(o).value, Token(Effective(o).value));
    }
  }

  /** Which effective markings reach which destination: CLEAR alone is public, CLEAR and GREEN reach the community and an external
      AI, everything but RED stays exportable inside, and no other destination receives anything. */
  lemma DestinationsExact(o: Observable, destination: string)
    ensures destination == "public" ==> (MayLeave(o, destination) <==> Effective(o) == Some(Clear))
    ensures destination == "community" || destination == "external_ai" ==>
      (MayLeave(o, destination) <==> Level(Effective(o)) < Level(None))
    ensures Level(Effective(o)) < Level(None) <==> Effective(o) == Some(Clear) || Effective(o) == Some(Green)
    ensures destination == "internal" ==> (MayLeave(o, destination) <==> Effective(o) != Some(Red))
    ensures destination !in {"public", "community", "external_ai", "internal"} ==> !MayLeave(o, destination)
  {
    MayLeaveIffAllowed(o, destination);
    AllowedExact(Effective(o), destination);
  }

  lemma AllowedExact(t: Input, destination: string)
    ensures var open := Allowed(destination).Some? && t in Allowed(destination).value;
      && (destination == "public" ==> (open <==> t == Some(Clear)))
      && (destination == "community" || destination == "external_ai" ==> (open <==> Level(t) < Level(None)))
      && (destination == "internal" ==> (open <==> t != Some(Red)))
      && (destination !in {"public", "community", "external_ai", "internal"} ==> !open)
      && (Level(t) < Level(None) <==> t == Some(Clear) || t == Some(Green))
  {
    EveryInput(t);
  }

  lemma EveryInput(t: Input)
    ensures t == None || t == Some(Clear) || t == Some(Green) || t == Some(Amber) || t == Some(AmberStrict) || t == Some(Red)
  {
    match t
    case None =>
    case Some(m) =>
      match m {
        case Clear =>
        case Green =>
        case Amber =>
        case AmberStrict =>
        case Red =>
      }
  }

  /** Every destination's allowed set is closed downwards in the linear order. */
  lemma AllowedIsDownSet(destination: string, lower: Input, higher: Input)
    requires Allowed(destination).Some? && higher in Allowed(destination).value
    requires Level(lower) <= Level(higher)
    ensures lower in Allowed(destination).value
  {
  }

  lemma RedNeverLeaves(o: Observable, destination: string)
    requires Effective(o) == Some(Red)
    ensures !MayLeave(o, destination)
  {
    MayLeaveIffAllowed(o, destination);
  }

  lemma JoinMonotone(fewer: seq<Input>, more: seq<Input>)
    requires fewer != [] && more != []
    requires forall t :: t in fewer ==> t in more
    ensures Level(Join(fewer)) <= Level(Join(more))
  {
    var j := Join(fewer);
    var i :| 0 <= i < |more| && more[i] == j;
  }

  datatype NewInput = NewFeed(marking: Input) | NewReport(marking: Input) | NewManual(manual: Marking)

  /** A feed or report is attached; a manual marking is merged with the one there is. */
  function AddInput(o: Observable, i: NewInput): Observable {
    match i
    case NewFeed(t) => o.(feeds := o.feeds + [t])
    case NewReport(t) => o.(reports := o.reports + [t])
    case NewManual(m) => o.(manual := MoreRestrictive(o.manual, Some(m)))
  }

  predicate HasInput(o: Observable) {
    o.feeds != [] || o.reports != [] || o.manual.Some?
  }

  lemma AddInputRaisesLevel(o: Observable, i: NewInput)
    requires HasInput(o) && o.override_.None?
    ensures Level(Effective(o)) <= Level(Effective(AddInput(o, i)))
  {
    var o' := AddInput(o, i);
    if i.NewManual? && o.manual.Some? {
      var a, b := o.feeds + o.reports, Inputs(o)[..|Inputs(o)| - 1];
      assert Inputs(o) == a + [o.manual] && Inputs(o') == a + [o'.manual];
      var j := Join(Inputs(o));
      var k :| 0 <= k < |Inputs(o)| && Inputs(o)[k] == j;
      if k < |a| {
        assert Inputs(o')[k] == j;
      } else {
        assert Inputs(o')[k] == o'.manual;
      }
    } else {
      JoinMonotone(Inputs(o), Inputs(o'));
    }
  }

  /** Adding an input never enlarges the set of destinations an observable may leave to, once it has one input. */
  lemma AddInputNeverLoosens(o: Observable, i: NewInput, destination: string)
    requires HasInput(o) && o.override_.None?
    requires MayLeave(AddInput(o, i), destination)
    ensures MayLeave(o, destination)
  {
    AddInputRaisesLevel(o, i);
    MayLeaveIffAllowed(o, destination);
    MayLeaveIffAllowed(AddInput(o, i), destination);
    AllowedIsDownSet(destination, Effective(o), Effective(AddInput(o, i)));
  }

  function NewMarking(i: NewInput): Input {
    match i
    case NewFeed(t) => t
    case NewReport(t) => t
    case NewManual(m) => Some(m)
  }

  /** A first input becomes the effective marking. */
  lemma FirstInputDecides(o: Observable, i: NewInput)
    requires !HasInput(o) && o.override_.None?
    ensures Effective(o) == None && Effective(AddInput(o, i)) == NewMarking(i)
  {
    assert Inputs(o) == [None] && Inputs(AddInput(o, i)) == [NewMarking(i)];
  }

  /** Without an existing input it may loosen, and then exactly when the effective marking falls below Unspecified. */
  lemma LoosensBelowUnspecified(o: Observable, i: NewInput)
    requires !HasInput(o) && o.override_.None?
    ensures (exists d :: MayLeave(AddInput(o, i), d) && !MayLeave(o, d))
       <==> Level(Effective(AddInput(o, i))) < Level(None)
  {
    var o' := AddInput(o, i);
    assert Effective(o) == None;
    if Level(Effective(o')) < Level(None) {
      MayLeaveIffAllowed(o, "community");
      MayLeaveIffAllowed(o', "community");
      assert MayLeave(o', "community") && !MayLeave(o, "community");
    }
    if d :| MayLeave(o', d) && !MayLeave(o, d) {
      MayLeaveIffAllowed(o, d);
      MayLeaveIffAllowed(o', d);
      if Level(Effective(o')) >= Level(None) {
        AllowedIsDownSet(d, None, Effective(o'));
      }
    }
  }

  /** A new input opens a destination exactly when it is CLEAR or GREEN and meets neither an override nor another input. */
  lemma FirstInputLoosensIff(o: Observable, i: NewInput)
    ensures (exists d :: MayLeave(AddInput(o, i), d) && !MayLeave(o, d)) <==>
      o.override_.None? && !HasInput(o) && (NewMarking(i) == Some(Clear) || NewMarking(i) == Some(Green))
  {
    if o.override_.Some? {
      assert Effective(AddInput(o, i)) == Effective(o);
      forall d
        ensures MayLeave(AddInput(o, i), d) == MayLeave(o, d)
      {
        MayLeaveIffAllowed(o, d);
        MayLeaveIffAllowed(AddInput(o, i), d);
      }
    } else if HasInput(o) {
      forall d | MayLeave(AddInput(o, i), d)
        ensures MayLeave(o, d)
      {
        AddInputNeverLoosens(o, i, d);
      }
    } else {
      FirstInputDecides(o, i);
      LoosensBelowUnspecified(o, i);
    }
  }

  // ── The external AI gate ──────────────────────────────────────────────

  /** An item a feature would send out; the marking is None when its row was deleted meanwhile. */
  datatype Item = ObservableItem(id: nat) | ReportItem(id: nat, marking: Input)

  predicate MayReachAi(item: Item, markings: map<nat, Input>) {
    match item
    case ObservableItem(id) => id in markings && IsShareable(Stored(markings[id]), EXTERNAL_AI)
    case ReportItem(_, marking) => IsShareable(Stored(marking), EXTERNAL_AI)
  }

  function KeepReachable(items: seq<Item>, markings: map<nat, Input>): seq<Item> {
    if items == [] then []
    else
      KeepReachable(items[..|items| - 1], markings)
      + (if MayReachAi(items[|items| - 1], markings) then [items[|items| - 1]] else [])
  }

  method FilterForExternalAi(items: seq<Item>, markings: map<nat, Input>) returns (kept: seq<Item>)
    ensures kept == KeepReachable(items, markings)
    ensures forall item :: item in kept <==> item in items && IsClearOrGreen(MarkingNow(item, markings))
  {
    kept := [];
    forall item: Item
      ensures MayReachAi(item, markings) <==> IsClearOrGreen(MarkingNow(item, markings))
    {
      OnlyClearAndGreenReachAi(item, markings);
    }
    for i := 0 to |items|
      invariant kept == KeepReachable(items[..i], markings)
      invariant forall item :: item in kept <==> item in items[..i] && MayReachAi(item, markings)
    {
      assert items[..i + 1][..i] == items[..i];
      var item := items[i];
      match item {
        case ObservableItem(id) =>
          if id in markings && IsShareable(Stored(markings[id]), EXTERNAL_AI) {
            kept := kept + [item];
          }
        case ReportItem(_, marking) =>
          if IsShareable(Stored(marking), EXTERNAL_AI) {
            kept := kept + [item];
          }
      }
    }
    assert items[..|items|] == items;
  }

  /** An item's marking as it is now; None for an observable that is gone. */
  function MarkingNow(item: Item, markings: map<nat, Input>): Option<Input> {
    match item
    case ObservableItem(id) => if id in markings then Some(markings[id]) else None
    case ReportItem(_, marking) => Some(marking)
  }

  predicate IsClearOrGreen(t: Option<Input>) {
    t == Some(Some(Clear)) || t == Some(Some(Green))
  }

  /** An item reaches an external AI exactly when it still exists and is CLEAR or GREEN. */
  lemma OnlyClearAndGreenReachAi(item: Item, markings: map<nat, Input>)
    ensures MayReachAi(item, markings) <==> IsClearOrGreen(MarkingNow(item, markings))
    ensures MayReachAi(item, markings) && item.ObservableItem? ==> item.id in markings && Level(markings[item.id]) < Level(None)
    ensures MayReachAi(item, markings) && item.ReportItem? ==> Level(item.marking) < Level(None)
  {
    var t := MarkingNow(item, markings);
    if t.Some? && t.value.Some? {
      ParseTokenInverse(t.value.value, Token(t.value.value));
    }
  }
}
