/** Collapsing obfuscated dot runs inside hosts, on top of the refang map. */
module DotCollapse {
  import opened Wrappers
  import opened OffsetMap
  import opened HostSpans
  import Sorting

  datatype DotRun = DotRun(start: nat, end: nat, isDefang: bool)

  predicate IsDot(text: string, i: int) {
    0 <= i < |text| && text[i] == '.'
  }

  ghost predicate AllDots(text: string, lo: nat, hi: nat) {
    lo <= hi <= |text| && forall i :: lo <= i < hi ==> IsDot(text, i)
  }

  /** A maximal run of at least two dots inside a host span. */
  ghost predicate IsRunIn(text: string, s: Span, lo: nat, hi: nat)
    requires s.end <= |text|
  {
    && s.start <= lo && lo + 2 <= hi <= s.end
    && AllDots(text, lo, hi)
    && (lo == s.start || !IsDot(text, lo - 1))
    && (hi == s.end || !IsDot(text, hi))
  }

  ghost predicate HasDefangDot(o: Offsets, lo: nat, hi: nat) {
    exists p :: lo <= p < hi && p in o.defangDots
  }

  /** Some dot of the run was written as a dot homoglyph. */
  ghost predicate HasHomoglyph(o: Offsets, homoglyphs: set<nat>, lo: nat, hi: nat)
    requires Ordered(o.subs)
  {
    exists p: nat :: lo <= p < hi && o.Start(p) in homoglyphs
  }

  method ClassifyDotRun(lo: nat, hi: nat, o: Offsets, homoglyphs: set<nat>) returns (collapse: bool, isDefang: bool)
    requires Ordered(o.subs) && lo <= hi
    ensures isDefang <==> HasDefangDot(o, lo, hi)
    ensures collapse <==> HasDefangDot(o, lo, hi) || HasHomoglyph(o, homoglyphs, lo, hi)
  {
    var obfuscated := false;
    for p := lo to hi
      invariant !HasDefangDot(o, lo, p)
      invariant obfuscated <==> HasHomoglyph(o, homoglyphs, lo, p)
    {
      if p in o.defangDots {
        return true, true;
      }
      if o.Start(p) in homoglyphs {
        obfuscated := true;
      }
    }
    return obfuscated, false;
  }

  /** The runs a collapse must replace. */
  ghost predicate IsObfuscatedRun(text: string, o: Offsets, homoglyphs: set<nat>, s: Span, r: DotRun)
    requires Ordered(o.subs) && s.end <= |text|
  {
    && IsRunIn(text, s, r.start, r.end)
    && (r.isDefang <==> HasDefangDot(o, r.start, r.end))
    && (r.isDefang || HasHomoglyph(o, homoglyphs, r.start, r.end))
  }

  ghost predicate SpansIn(spans: seq<Span>, length: nat) {
    forall i :: 0 <= i < |spans| ==> spans[i].start < spans[i].end <= length
  }

  /** The end of the run of dots that starts at dot. */
  method RunEnd(text: string, dot: nat, end: nat) returns (runEnd: nat)
    requires dot < end <= |text| && IsDot(text, dot)
    ensures dot < runEnd <= end && AllDots(text, dot, runEnd) && (runEnd == end || !IsDot(text, runEnd))
  {
    runEnd := dot + 1;
    while runEnd < end && text[runEnd] == '.'
      invariant dot < runEnd <= end && AllDots(text, dot, runEnd)
    {
      runEnd := runEnd + 1;
    }
  }

  /** The obfuscated runs of one span that end before pos. */
  ghost predicate RunsOfSpan(text: string, o: Offsets, homoglyphs: set<nat>, s: Span, pos: nat, runs: seq<DotRun>)
    requires Ordered(o.subs) && s.end <= |text|
  {
    forall r :: r in runs <==> r.end <= pos && IsObfuscatedRun(text, o, homoglyphs, s, r)
  }

  method SpanRuns(text: string, o: Offsets, homoglyphs: set<nat>, s: Span) returns (runs: seq<DotRun>)
    requires Ordered(o.subs) && s.start < s.end <= |text|
    ensures forall r :: r in runs <==> IsObfuscatedRun(text, o, homoglyphs, s, r)
  {
    runs := [];
    var pos := s.start;
    var dot := FindFirst(text, ".", pos, s.end);
    while dot.Some?
      invariant s.start <= pos <= s.end && dot == FindFirst(text, ".", pos, s.end)
      invariant pos == s.start || !IsDot(text, pos - 1) || pos == s.end || !IsDot(text, pos)
      invariant RunsOfSpan(text, o, homoglyphs, s, pos, runs)
      decreases s.end - pos
    {
      ghost var runs0 := runs;
      var runEnd := RunEnd(text, dot.value, s.end);
      FirstDotStartsRun(text, s, pos, dot.value);
      if runEnd - dot.value >= 2 {
        var collapse, isDefang := ClassifyDotRun(dot.value, runEnd, o, homoglyphs);
        if collapse {
          runs := runs + [DotRun(dot.value, runEnd, isDefang)];
        }
      }
      NextRun(text, o, homoglyphs, s, pos, dot.value, runEnd, runs0, runs);
      pos := runEnd;
      dot := FindFirst(text, ".", pos, s.end);
    }
    forall r | IsObfuscatedRun(text, o, homoglyphs, s, r)
      ensures r.end <= pos
    {
      NoDotsLeft(text, s, pos, r.start, r.end);
    }
  }

  lemma FirstDotStartsRun(text: string, s: Span, pos: nat, dot: nat)
    requires s.start <= pos <= dot < s.end <= |text| && FindFirst(text, ".", pos, s.end) == Some(dot)
    requires pos == s.start || !IsDot(text, pos - 1) || pos == s.end || !IsDot(text, pos)
    ensures dot == s.start || !IsDot(text, dot - 1)
    ensures IsDot(text, dot)
  {
    assert OneOf(text, dot, ".");
    if dot > pos {
      assert !OneOf(text, dot - 1, ".");
    }
  }

  lemma NoDotsLeft(text: string, s: Span, pos: nat, lo: nat, hi: nat)
    requires s.start <= pos <= s.end <= |text| && FindFirst(text, ".", pos, s.end).None?
    requires IsRunIn(text, s, lo, hi)
    ensures hi <= pos
  {
    assert IsDot(text, hi - 1);
    assert OneOf(text, hi - 1, ".");
  }

  /** Between the first dot after pos and the end of its run there is one maximal run and no other. */
  lemma OnlyRun(text: string, s: Span, pos: nat, dot: nat, runEnd: nat, lo: nat, hi: nat)
    requires s.start <= pos <= dot < runEnd <= s.end <= |text| && FindFirst(text, ".", pos, s.end) == Some(dot)
    requires AllDots(text, dot, runEnd) && (runEnd == s.end || !IsDot(text, runEnd))
    requires pos == s.start || !IsDot(text, pos - 1) || !IsDot(text, pos)
    requires dot == s.start || !IsDot(text, dot - 1)
    requires IsRunIn(text, s, lo, hi) && pos < hi <= runEnd
    ensures lo == dot && hi == runEnd
  {
    assert IsDot(text, hi - 1);
    assert OneOf(text, hi - 1, ".");
  }

  lemma NextRun(
      text: string, o: Offsets, homoglyphs: set<nat>, s: Span, pos: nat, dot: nat, runEnd: nat, runs: seq<DotRun>, more: seq<DotRun>)
    requires Ordered(o.subs)
    requires s.start <= pos <= dot < runEnd <= s.end <= |text| && FindFirst(text, ".", pos, s.end) == Some(dot)
    requires AllDots(text, dot, runEnd) && (runEnd == s.end || !IsDot(text, runEnd))
    requires pos == s.start || !IsDot(text, pos - 1) || !IsDot(text, pos)
    requires dot == s.start || !IsDot(text, dot - 1)
    requires RunsOfSpan(text, o, homoglyphs, s, pos, runs)
    requires var r := DotRun(dot, runEnd, HasDefangDot(o, dot, runEnd));
      more == if runEnd - dot >= 2 && (r.isDefang || HasHomoglyph(o, homoglyphs, dot, runEnd)) then runs + [r] else runs
    ensures RunsOfSpan(text, o, homoglyphs, s, runEnd, more)
    ensures runEnd == s.end || !IsDot(text, runEnd)
  {
    forall r
      ensures r in more <==> r.end <= runEnd && IsObfuscatedRun(text, o, homoglyphs, s, r)
    {
      if pos < r.end <= runEnd && IsObfuscatedRun(text, o, homoglyphs, s, r) {
        OnlyRun(text, s, pos, dot, runEnd, r.start, r.end);
      }
    }
  }

  ghost predicate RunsApart(runs: seq<DotRun>) {
    forall i, j {:trigger runs[i].end, runs[j].start} :: 0 <= i < j < |runs| ==> runs[i].end <= runs[j].start
  }

  predicate RunLe(a: DotRun, b: DotRun) {
    a.start < b.start || (a.start == b.start && (a.end < b.end || (a.end == b.end && (!a.isDefang || b.isDefang))))
  }

  lemma RunLeLinear()
    ensures Sorting.Total(RunLe) && Sorting.Antisymmetric(RunLe)
  {
  }

  /** Every obfuscated run of every host span, in text order, none overlapping another. */
  method ObfuscatedDotRuns(text: string, o: Offsets, homoglyphs: set<nat>, spans: seq<Span>) returns (runs: seq<DotRun>)
    requires Ordered(o.subs) && SpansIn(spans, |text|) && PairwiseApart(spans)
    ensures forall r :: r in runs <==> exists k :: 0 <= k < |spans| && IsObfuscatedRun(text, o, homoglyphs, spans[k], r)
    ensures RunsApart(runs)
  {
    var found := [];
    for i := 0 to |spans|
      invariant forall r :: r in found <==> exists k :: 0 <= k < i && IsObfuscatedRun(text, o, homoglyphs, spans[k], r)
    {
      var more := SpanRuns(text, o, homoglyphs, spans[i]);
      found := found + more;
    }
    forall r, q | r in found && q in found && r != q
      ensures r.end <= q.start || q.end <= r.start
    {
      RunsOfSpansApart(text, o, homoglyphs, spans, r, q);
    }
    runs := DropOverlaps(found);
  }

  lemma RunsOfSpansApart(text: string, o: Offsets, homoglyphs: set<nat>, spans: seq<Span>, r: DotRun, q: DotRun)
    requires Ordered(o.subs) && SpansIn(spans, |text|) && PairwiseApart(spans) && r != q
    requires exists k :: 0 <= k < |spans| && IsObfuscatedRun(text, o, homoglyphs, spans[k], r)
    requires exists k :: 0 <= k < |spans| && IsObfuscatedRun(text, o, homoglyphs, spans[k], q)
    ensures r.end <= q.start || q.end <= r.start
  {
    var i :| 0 <= i < |spans| && IsObfuscatedRun(text, o, homoglyphs, spans[i], r);
    var j :| 0 <= j < |spans| && IsObfuscatedRun(text, o, homoglyphs, spans[j], q);
    if i != j {
      assert Apart(spans[i], spans[j]);
    } else {
      MaximalRunsApart(text, spans[i], r, q);
    }
  }

  lemma MaximalRunsApart(text: string, s: Span, r: DotRun, q: DotRun)
    requires s.end <= |text| && IsRunIn(text, s, r.start, r.end) && IsRunIn(text, s, q.start, q.end)
    ensures r.end <= q.start || q.end <= r.start || (r.start == q.start && r.end == q.end)
  {
  }

  ghost predicate ApartOrEqual(runs: seq<DotRun>) {
    && (forall r :: r in runs ==> r.start < r.end)
    && (forall r, q :: r in runs && q in runs && r != q ==> r.end <= q.start || q.end <= r.start)
  }

  function KeepOne(kept: seq<DotRun>, r: DotRun): seq<DotRun> {
    if kept != [] && r.start < kept[|kept| - 1].end then kept else kept + [r]
  }

  /** Of the first i runs, those that start at or after the end of the last one kept. */
  function KeepApart(ordered: seq<DotRun>, i: nat): seq<DotRun>
    requires i <= |ordered|
  {
    if i == 0 then [] else KeepOne(KeepApart(ordered, i - 1), ordered[i - 1])
  }

  /** Kept so far: apart, taken from the given runs, and ending with last. */
  ghost predicate Kept(kept: seq<DotRun>, all: seq<DotRun>, last: DotRun) {
    && RunsApart(kept)
    && (forall k :: 0 <= k < |kept| ==> kept[k] in all)
    && kept != [] && kept[|kept| - 1] == last
  }

  lemma KeepStep(all: seq<DotRun>, kept: seq<DotRun>, last: DotRun, r: DotRun)
    requires ApartOrEqual(all) && last in all && r in all && RunLe(last, r) && Kept(kept, all, last)
    ensures Kept(KeepOne(kept, r), all, r)
  {
    if r.start >= last.end {
      forall k | 0 <= k < |kept|
        ensures kept[k].end <= r.start
      {
      }
    }
  }

  /** Kept runs are apart, and the last one kept is the last one seen. */
  lemma {:induction false} KeepApartLast(ordered: seq<DotRun>, i: nat)
    requires 0 < i <= |ordered| && ApartOrEqual(ordered) && Sorting.Sorted(ordered, RunLe)
    ensures Kept(KeepApart(ordered, i), ordered, ordered[i - 1])
  {
    if i == 1 {
      assert KeepApart(ordered, 0) == [];
    } else {
      KeepApartLast(ordered, i - 1);
      KeepStep(ordered, KeepApart(ordered, i - 1), ordered[i - 2], ordered[i - 1]);
    }
  }

  lemma {:induction false} KeepApartContains(ordered: seq<DotRun>, i: nat, k: nat)
    requires k < i <= |ordered| && ApartOrEqual(ordered) && Sorting.Sorted(ordered, RunLe)
    ensures ordered[k] in KeepApart(ordered, i)
  {
    if k == i - 1 {
      KeepApartLast(ordered, i);
    } else {
      KeepApartContains(ordered, i - 1, k);
    }
  }

  /** Sort, then keep each run that starts at or after the end of the last one kept. Runs that are apart are all kept. */
  method DropOverlaps(found: seq<DotRun>) returns (runs: seq<DotRun>)
    requires ApartOrEqual(found)
    ensures forall r :: r in runs <==> r in found
    ensures RunsApart(runs)
  {
    var ordered := Sorting.Sort(found, RunLe);
    runs := [];
    var lastEnd: int := -1;
    for i := 0 to |ordered|
      invariant runs == KeepApart(ordered, i)
      invariant lastEnd == if runs == [] then -1 else runs[|runs| - 1].end
    {
      var r := ordered[i];
      if r.start < lastEnd {
        continue;
      }
      runs := runs + [r];
      lastEnd := r.end;
    }
    DropOverlapsKeeps(found);
  }

  lemma DropOverlapsKeeps(found: seq<DotRun>)
    requires ApartOrEqual(found)
    ensures var ordered := Sorting.Sort(found, RunLe);
      var kept := KeepApart(ordered, |ordered|);
      RunsApart(kept) && forall r :: r in kept <==> r in found
  {
    var ordered := Sorting.Sort(found, RunLe);
    RunLeLinear();
    Sorting.SortSpec(found, RunLe);
    Sorting.SortMembers(found, RunLe);
    if ordered != [] {
      KeepApartLast(ordered, |ordered|);
    }
    forall k | 0 <= k < |ordered|
      ensures ordered[k] in KeepApart(ordered, |ordered|)
    {
      KeepApartContains(ordered, |ordered|, k);
    }
  }

  // ── Applying the collapses ────────────────────────────────────────────

  /** What the copying loop holds: output, both maps, the next substitution, and a cursor in each text. */
  datatype Cursor = Cursor(parts: string, mapping: seq<Sub>, defangs: seq<Sub>, subIndex: nat, atOld: nat)

  const ORIGIN := Cursor("", [], [], 0, 0)

  /** The entry as it reads once the text at `from` has been copied to `to`. */
  function Shifted(s: Sub, from: nat, to: nat): Sub
    requires from <= s.newStart <= s.newEnd
  {
    Sub(s.newStart - from + to, s.newEnd - from + to, s.origStart, s.origEnd)
  }

  /** How many substitutions, from index on, start before oldEnd. */
  function SkipTo(subs: seq<Sub>, index: nat, oldEnd: nat): (next: nat)
    requires index <= |subs|
    ensures index <= next <= |subs|
    ensures forall k :: index <= k < next ==> subs[k].newStart < oldEnd
    ensures next < |subs| ==> oldEnd <= subs[next].newStart
    decreases |subs| - index
  {
    if index < |subs| && subs[index].newStart < oldEnd then SkipTo(subs, index + 1, oldEnd) else index
  }

  /** The substitutions in [index, next) that start at or after `from`, moved to their copied place. */
  function ShiftedSubs(subs: seq<Sub>, index: nat, next: nat, from: nat, to: nat): seq<Sub>
    requires index <= next <= |subs| && Ordered(subs)
    decreases next
  {
    if index == next then []
    else
      var front := ShiftedSubs(subs, index, next - 1, from, to);
      if subs[next - 1].newStart >= from then front + [Shifted(subs[next - 1], from, to)] else front
  }

  function CopyTo(text: string, subs: seq<Sub>, c: Cursor, oldEnd: nat): Cursor
    requires Ordered(subs) && c.subIndex <= |subs| && c.atOld <= oldEnd <= |text|
  {
    var next := SkipTo(subs, c.subIndex, oldEnd);
    var copied := ShiftedSubs(subs, c.subIndex, next, c.atOld, |c.parts|);
    Cursor(c.parts + text[c.atOld..oldEnd], c.mapping + copied, c.defangs + copied, next, oldEnd)
  }

  /** A run together with the slice of the original that its dot will stand for. */
  datatype Place = Place(run: DotRun, origStart: nat, origEnd: nat)

  function PlaceOf(o: Offsets, r: DotRun): Place
    requires Ordered(o.subs)
  {
    Place(r, o.Start(r.start), o.End(r.end))
  }

  /** One dot for the whole run; it counts as a defang only when the run held one. */
  function PutDot(subs: seq<Sub>, c: Cursor, p: Place): Cursor
    requires c.subIndex <= |subs|
  {
    var dot := Sub(|c.parts|, |c.parts| + 1, p.origStart, p.origEnd);
    Cursor(c.parts + ".", c.mapping + [dot], if p.run.isDefang then c.defangs + [dot] else c.defangs,
      SkipTo(subs, c.subIndex, p.run.end), p.run.end)
  }

  ghost predicate CopiedSoFar(subs: seq<Sub>, first: nat, index: nat, oldEnd: nat, from: nat, to: nat, copied: seq<Sub>) {
    && Ordered(subs) && first <= index <= |subs|
    && SkipTo(subs, index, oldEnd) == SkipTo(subs, first, oldEnd)
    && copied == ShiftedSubs(subs, first, index, from, to)
  }

  lemma CopiedStep(subs: seq<Sub>, first: nat, index: nat, oldEnd: nat, from: nat, to: nat, copied: seq<Sub>)
    requires CopiedSoFar(subs, first, index, oldEnd, from, to, copied)
    requires index < |subs| && subs[index].newStart < oldEnd
    ensures subs[index].newStart < subs[index].newEnd
    ensures CopiedSoFar(subs, first, index + 1, oldEnd, from, to,
              copied + (if subs[index].newStart >= from then [Shifted(subs[index], from, to)] else []))
  {
  }

  /** The mutable cursors that one closure and its caller share. */
  class Collapser {
    const text: string
    const o: Offsets
    var parts: string
    var mapping: seq<Sub>
    var defangs: seq<Sub>
    var subIndex: nat
    var cursorOld: nat
    var cursorNew: nat

    ghost predicate Valid()
      reads this
    {
      && Ordered(o.subs) && subIndex <= |o.subs| && cursorOld <= |text| && cursorNew == |parts|
    }

    function State(): Cursor
      reads this
    {
      Cursor(parts, mapping, defangs, subIndex, cursorOld)
    }

    constructor (text: string, o: Offsets)
      requires Ordered(o.subs)
      ensures Valid() && State() == ORIGIN && this.text == text && this.o == o
    {
      this.text, this.o := text, o;
      parts, mapping, defangs := "", [], [];
      subIndex, cursorOld, cursorNew := 0, 0, 0;
    }

    /** Copies the entries that start before oldEnd, moving those the cursor has not passed. */
    method CopySubs(oldEnd: nat)
      requires Ordered(o.subs) && subIndex <= |o.subs|
      modifies this`mapping, this`defangs, this`subIndex
      ensures subIndex == SkipTo(o.subs, old(subIndex), oldEnd)
      ensures var copied := ShiftedSubs(o.subs, old(subIndex), subIndex, cursorOld, cursorNew);
        mapping == old(mapping) + copied && defangs == old(defangs) + copied
    {
      ghost var first, from, to := subIndex, cursorOld, cursorNew;
      ghost var copied: seq<Sub> := [];
      while subIndex < |o.subs| && o.subs[subIndex].newStart < oldEnd
        invariant CopiedSoFar(o.subs, first, subIndex, oldEnd, from, to, copied)
        invariant mapping == old(mapping) + copied && defangs == old(defangs) + copied
      {
        CopiedStep(o.subs, first, subIndex, oldEnd, from, to, copied);
        ghost var moved := CopyOne();
        copied := copied + moved;
      }
    }

    method CopyOne() returns (ghost moved: seq<Sub>)
      requires subIndex < |o.subs| && o.subs[subIndex].newStart <= o.subs[subIndex].newEnd
      modifies this`mapping, this`defangs, this`subIndex
      ensures var s := o.subs[old(subIndex)];
        moved == if s.newStart >= cursorOld then [Shifted(s, cursorOld, cursorNew)] else []
      ensures mapping == old(mapping) + moved && defangs == old(defangs) + moved && subIndex == old(subIndex) + 1
    {
      var s := o.subs[subIndex];
      moved := [];
      if s.newStart >= cursorOld {
        var shifted := Shifted(s, cursorOld, cursorNew);
        mapping := mapping + [shifted];
        defangs := defangs + [shifted];
        moved := [shifted];
      }
      subIndex := subIndex + 1;
    }

    method CopyUntil(oldEnd: nat)
      requires Valid() && cursorOld <= oldEnd <= |text|
      modifies this
      ensures Valid() && State() == CopyTo(text, o.subs, old(State()), oldEnd)
    {
      if oldEnd > cursorOld {
        parts := parts + text[cursorOld..oldEnd];
      }
      CopySubs(oldEnd);
      cursorNew := cursorNew + (oldEnd - cursorOld);
      cursorOld := oldEnd;
    }

    method Collapse(r: DotRun)
      requires Valid() && cursorOld <= r.start && r.start + 2 <= r.end <= |text|
      modifies this
      ensures Valid() && cursorOld == r.end
      ensures State() == PutDot(o.subs, CopyTo(text, o.subs, old(State()), r.start), PlaceOf(o, r))
    {
      CopyUntil(r.start);
      SkipSubs(r.end);
      var p := PlaceOf(o, r);
      var collapsed := Sub(cursorNew, cursorNew + 1, p.origStart, p.origEnd);
      mapping := mapping + [collapsed];
      if r.isDefang {
        defangs := defangs + [collapsed];
      }
      parts := parts + ".";
      cursorNew := cursorNew + 1;
      cursorOld := r.end;
    }

    /** The entries inside a run are dropped with its dots. */
    method SkipSubs(oldEnd: nat)
      requires Ordered(o.subs) && subIndex <= |o.subs|
      modifies this`subIndex
      ensures subIndex == SkipTo(o.subs, old(subIndex), oldEnd)
    {
      while subIndex < |o.subs| && o.subs[subIndex].newStart < oldEnd
        invariant old(subIndex) <= subIndex <= |o.subs|
        invariant SkipTo(o.subs, subIndex, oldEnd) == SkipTo(o.subs, old(subIndex), oldEnd)
      {
        subIndex := subIndex + 1;
      }
    }
  }

  /** Runs a collapse may be given: in the text, all dots, at least two long, in order. */
  ghost predicate Collapsible(text: string, runs: seq<DotRun>) {
    && (forall i :: 0 <= i < |runs| ==> CollapsibleRun(text, runs[i]))
    && RunsApart(runs)
  }

  ghost predicate CollapsibleRun(text: string, r: DotRun) {
    r.start + 2 <= r.end <= |text| && AllDots(text, r.start, r.end)
  }

  function EndOf(runs: seq<DotRun>, i: nat): nat
    requires i <= |runs|
  {
    if i == 0 then 0 else runs[i - 1].end
  }

  function Places(o: Offsets, runs: seq<DotRun>): (places: seq<Place>)
    requires Ordered(o.subs)
    ensures |places| == |runs| && forall k :: 0 <= k < |runs| ==> places[k].run == runs[k]
  {
    if runs == [] then [] else Places(o, runs[..|runs| - 1]) + [PlaceOf(o, runs[|runs| - 1])]
  }

  lemma {:induction false} PlacesAt(o: Offsets, runs: seq<DotRun>, k: nat)
    requires Ordered(o.subs) && k < |runs|
    ensures Places(o, runs)[k] == PlaceOf(o, runs[k])
    decreases |runs|
  {
    if k < |runs| - 1 {
      PlacesAt(o, runs[..|runs| - 1], k);
    }
  }

  ghost predicate PlacesOf(runs: seq<DotRun>, places: seq<Place>) {
    |places| == |runs| && forall k :: 0 <= k < |runs| ==> places[k].run == runs[k]
  }

  lemma EndOfInText(text: string, runs: seq<DotRun>, i: nat)
    requires Collapsible(text, runs) && i <= |runs|
    ensures EndOf(runs, i) <= |text| && (i < |runs| ==> EndOf(runs, i) <= runs[i].start < runs[i].end <= |text|)
  {
    if i > 0 {
      assert CollapsibleRun(text, runs[i - 1]);
    }
    if i < |runs| {
      assert CollapsibleRun(text, runs[i]);
    }
  }

  /** One turn of the collapsing loop takes cursor c to cursor d. */
  ghost predicate IsStep(text: string, subs: seq<Sub>, c: Cursor, p: Place, d: Cursor) {
    && Ordered(subs) && c.subIndex <= |subs| && c.atOld <= p.run.start <= |text|
    && d == PutDot(subs, CopyTo(text, subs, c, p.run.start), p)
  }

  ghost predicate StepAt(text: string, subs: seq<Sub>, places: seq<Place>, cs: seq<Cursor>, k: nat)
    requires |cs| == |places| + 1 && k < |places|
  {
    IsStep(text, subs, cs[k], places[k], cs[k + 1])
  }

  /** The cursors before the first run and after each run. */
  ghost predicate IsTrace(text: string, subs: seq<Sub>, places: seq<Place>, cs: seq<Cursor>) {
    && |cs| == |places| + 1 && cs[0] == ORIGIN
    && forall k :: 0 <= k < |places| ==> StepAt(text, subs, places, cs, k)
  }

  /** A complete pass: a trace over all the runs, and the rest of the text copied. */
  ghost predicate IsPass(text: string, subs: seq<Sub>, places: seq<Place>, cs: seq<Cursor>, c: Cursor) {
    && Ordered(subs) && IsTrace(text, subs, places, cs)
    && var last := cs[|places|];
      last.subIndex <= |subs| && last.atOld <= |text| && c == CopyTo(text, subs, last, |text|)
  }

  lemma TraceAppend(text: string, subs: seq<Sub>, places: seq<Place>, cs: seq<Cursor>, p: Place, d: Cursor)
    requires IsTrace(text, subs, places, cs) && IsStep(text, subs, cs[|places|], p, d)
    ensures IsTrace(text, subs, places + [p], cs + [d])
  {
    var ps, ds := places + [p], cs + [d];
    forall k | 0 <= k < |ps|
      ensures StepAt(text, subs, ps, ds, k)
    {
      if k < |places| {
        assert StepAt(text, subs, places, cs, k);
      }
    }
  }

  /** One dot per run, in order; the cursors seen on the way come back for the proofs. */
  method CollapseEach(work: Collapser, runs: seq<DotRun>) returns (ghost places: seq<Place>, ghost cs: seq<Cursor>)
    requires work.Valid() && work.State() == ORIGIN && Collapsible(work.text, runs)
    modifies work
    ensures work.Valid() && work.cursorOld == EndOf(runs, |runs|)
    ensures places == Places(work.o, runs)
    ensures IsTrace(work.text, work.o.subs, places, cs) && cs[|places|] == work.State()
  {
    places, cs := [], [work.State()];
    for i := 0 to |runs|
      invariant work.Valid() && work.cursorOld == EndOf(runs, i)
      invariant places == Places(work.o, runs[..i])
      invariant IsTrace(work.text, work.o.subs, places, cs) && cs[|places|] == work.State()
    {
      EndOfInText(work.text, runs, i);
      assert CollapsibleRun(work.text, runs[i]);
      ghost var before := work.State();
      work.Collapse(runs[i]);
      assert IsStep(work.text, work.o.subs, before, PlaceOf(work.o, runs[i]), work.State());
      TraceAppend(work.text, work.o.subs, places, cs, PlaceOf(work.o, runs[i]), work.State());
      assert runs[..i + 1][..i] == runs[..i];
      places, cs := places + [PlaceOf(work.o, runs[i])], cs + [work.State()];
    }
    assert runs[..|runs|] == runs;
  }

  method ApplyDotCollapses(text: string, o: Offsets, runs: seq<DotRun>)
    returns (collapsed: string, offsets: Offsets, ghost cs: seq<Cursor>, ghost c: Cursor)
    requires Ordered(o.subs) && Collapsible(text, runs)
    ensures IsPass(text, o.subs, Places(o, runs), cs, c)
    ensures collapsed == c.parts && offsets == Offsets(c.mapping, c.defangs, {})
  {
    var work := new Collapser(text, o);
    ghost var places;
    places, cs := CollapseEach(work, runs);
    EndOfInText(text, runs, |runs|);
    work.CopyUntil(|text|);
    c := work.State();
    return work.parts, Offsets(work.mapping, work.defangs, {}), cs, c;
  }

  lemma {:induction false} TraceAt(text: string, subs: seq<Sub>, runs: seq<DotRun>, places: seq<Place>, cs: seq<Cursor>, i: nat)
    requires IsTrace(text, subs, places, cs) && PlacesOf(runs, places) && i <= |runs|
    ensures cs[i].atOld == EndOf(runs, i) && (Ordered(subs) ==> cs[i].subIndex <= |subs|)
  {
    if i > 0 {
      assert StepAt(text, subs, places, cs, i - 1);
    }
  }

  // ── The collapsed text ────────────────────────────────────────────────

  /** The text with each of the first i runs written as one dot, up to the end of the last of them. */
  function CollapsedPrefix(text: string, runs: seq<DotRun>, i: nat): string
    requires Collapsible(text, runs) && i <= |runs|
  {
    if i == 0 then ""
    else
      EndOfInText(text, runs, i - 1);
      CollapsedPrefix(text, runs, i - 1) + text[EndOf(runs, i - 1)..runs[i - 1].start] + "."
  }

  function CollapsedText(text: string, runs: seq<DotRun>): string
    requires Collapsible(text, runs)
  {
    EndOfInText(text, runs, |runs|);
    CollapsedPrefix(text, runs, |runs|) + text[EndOf(runs, |runs|)..]
  }

  function NonDots(s: string): string {
    if s == "" then "" else NonDots(s[..|s| - 1]) + (if s[|s| - 1] == '.' then "" else [s[|s| - 1]])
  }

  lemma {:induction false} NonDotsConcat(a: string, b: string)
    ensures NonDots(a + b) == NonDots(a) + NonDots(b)
    decreases |b|
  {
    if b == "" {
      assert a + b == a;
    } else {
      NonDotsConcat(a, b[..|b| - 1]);
      assert (a + b)[..|a + b| - 1] == a + b[..|b| - 1];
    }
  }

  lemma {:induction false} NonDotsOfDots(s: string)
    requires AllDots(s, 0, |s|)
    ensures NonDots(s) == ""
  {
    if s != "" {
      var front := s[..|s| - 1];
      forall i | 0 <= i < |front|
        ensures IsDot(front, i)
      {
        assert IsDot(s, i);
      }
      assert IsDot(s, |s| - 1);
      NonDotsOfDots(front);
    }
  }

  /** Replacing a nonempty run by one dot changes no other character. */
  lemma NonDotsCollapseOne(before: string, gap: string, run: string, collapsed: string)
    requires AllDots(run, 0, |run|) && NonDots(collapsed) == NonDots(before)
    ensures NonDots(collapsed + gap + ".") == NonDots(before + gap + run)
  {
    NonDotsOfDots(run);
    NonDotsOfDots(".");
    NonDotsConcat(before, gap);
    NonDotsConcat(before + gap, run);
    NonDotsConcat(collapsed, gap);
    NonDotsConcat(collapsed + gap, ".");
  }

  lemma {:induction false} CollapsedPrefixKeeps(text: string, runs: seq<DotRun>, i: nat)
    requires Collapsible(text, runs) && i <= |runs|
    ensures EndOf(runs, i) <= |text|
    ensures NonDots(CollapsedPrefix(text, runs, i)) == NonDots(text[..EndOf(runs, i)])
    ensures |CollapsedPrefix(text, runs, i)| + i <= EndOf(runs, i)
  {
    if i > 0 {
      CollapsedPrefixKeeps(text, runs, i - 1);
      EndOfInText(text, runs, i - 1);
      NonDotsCollapseRun(text, EndOf(runs, i - 1), runs[i - 1], CollapsedPrefix(text, runs, i - 1));
    }
  }

  lemma NonDotsCollapseRun(text: string, from: nat, r: DotRun, collapsed: string)
    requires from <= r.start && CollapsibleRun(text, r) && NonDots(collapsed) == NonDots(text[..from])
    ensures NonDots(collapsed + text[from..r.start] + ".") == NonDots(text[..r.end])
  {
    var gap, run := text[from..r.start], text[r.start..r.end];
    forall k | 0 <= k < |run|
      ensures IsDot(run, k)
    {
      assert IsDot(text, r.start + k);
    }
    NonDotsCollapseOne(text[..from], gap, run, collapsed);
    assert text[..from] + gap + run == text[..r.end];
  }

  /** Collapsing removes only dots, and at least one for every run. */
  lemma CollapsedTextKeeps(text: string, runs: seq<DotRun>)
    requires Collapsible(text, runs)
    ensures NonDots(CollapsedText(text, runs)) == NonDots(text)
    ensures |CollapsedText(text, runs)| + |runs| <= |text|
  {
    CollapsedPrefixKeeps(text, runs, |runs|);
    var end := EndOf(runs, |runs|);
    NonDotsConcat(CollapsedPrefix(text, runs, |runs|), text[end..]);
    NonDotsConcat(text[..end], text[end..]);
    assert text == text[..end] + text[end..];
  }

  lemma CopyToParts(text: string, subs: seq<Sub>, c: Cursor, oldEnd: nat)
    requires Ordered(subs) && c.subIndex <= |subs| && c.atOld <= oldEnd <= |text|
    ensures CopyTo(text, subs, c, oldEnd).parts == c.parts + text[c.atOld..oldEnd]
  {
  }

  lemma {:induction false} TraceText(text: string, subs: seq<Sub>, runs: seq<DotRun>, places: seq<Place>, cs: seq<Cursor>, i: nat)
    requires IsTrace(text, subs, places, cs) && Collapsible(text, runs) && PlacesOf(runs, places) && i <= |runs|
    ensures cs[i].parts == CollapsedPrefix(text, runs, i)
  {
    if i > 0 {
      TraceText(text, subs, runs, places, cs, i - 1);
      TraceAt(text, subs, runs, places, cs, i - 1);
      assert StepAt(text, subs, places, cs, i - 1);
      EndOfInText(text, runs, i - 1);
      CopyToParts(text, subs, cs[i - 1], runs[i - 1].start);
    }
  }

  /** The copying loop writes exactly the collapsed text. */
  lemma PassWritesText(text: string, subs: seq<Sub>, runs: seq<DotRun>, places: seq<Place>, cs: seq<Cursor>, c: Cursor)
    requires IsPass(text, subs, places, cs, c) && Collapsible(text, runs) && PlacesOf(runs, places)
    ensures c.parts == CollapsedText(text, runs)
  {
    TraceText(text, subs, runs, places, cs, |runs|);
    TraceAt(text, subs, runs, places, cs, |runs|);
    CopyToParts(text, subs, cs[|runs|], |text|);
  }

  // ── The map stays faithful ────────────────────────────────────────────

  /** At a cut, the output so far stands for the original up to the cut. */
  ghost predicate FaithfulToCut(original: string, subs: seq<Sub>, k: nat, c: nat, parts: string, mapping: seq<Sub>) {
    && k <= |subs| && PrevNew(subs, k) <= c && CutOrig(subs, k, c) <= |original|
    && Faithful(original[..CutOrig(subs, k, c)], parts, mapping)
  }

  /** Copying between two cuts keeps the map faithful. */
  lemma {:induction false} CopyFaithful(
      original: string, text: string, subs: seq<Sub>, i: nat, c1: nat, j: nat, c2: nat, parts: string, mapping: seq<Sub>)
    requires Aligned(original, text, subs) && Cut(subs, i, c1) && Cut(subs, j, c2) && i <= j && c1 <= c2 <= |text|
    requires FaithfulToCut(original, subs, i, c1, parts, mapping)
    ensures FaithfulToCut(original, subs, j, c2, parts + text[c1..c2], mapping + ShiftedSubs(subs, i, j, c1, |parts|))
    decreases j
  {
    if i == j {
      assert AlignedAt(original, text, subs, i, c1) && AlignedAt(original, text, subs, j, c2);
      CopyGap(original, text, subs, i, c1, c2, parts, mapping);
      assert mapping + [] == mapping;
    } else {
      var s := subs[j - 1];
      CutBefore(subs, j);
      CopyFaithful(original, text, subs, i, c1, j - 1, s.newStart, parts, mapping);
      CopiedText(text, parts, c1, s.newStart, s.newEnd, c2);
      var front := mapping + ShiftedSubs(subs, i, j - 1, c1, |parts|);
      assert front + [Shifted(s, c1, |parts|)] == mapping + ShiftedSubs(subs, i, j, c1, |parts|);
      CopySubAndGap(original, text, subs, j, c2, parts + text[c1..s.newStart], front, c1, |parts|);
    }
  }

  lemma CopiedText(text: string, parts: string, a: nat, b: nat, c: nat, d: nat)
    requires a <= b <= c <= d <= |text|
    ensures parts + text[a..b] + text[b..c] + text[c..d] == parts + text[a..d]
  {
  }

  lemma CutBefore(subs: seq<Sub>, j: nat)
    requires Ordered(subs) && 0 < j <= |subs|
    ensures Cut(subs, j - 1, subs[j - 1].newStart)
  {
  }

  lemma CutAfterSub(subs: seq<Sub>, j: nat)
    requires Ordered(subs) && 0 < j <= |subs|
    ensures Cut(subs, j, subs[j - 1].newEnd)
  {
  }

  lemma {:induction false} CopySubAndGap(
      original: string, text: string, subs: seq<Sub>, j: nat, c2: nat, parts: string, mapping: seq<Sub>, from: nat, to: nat)
    requires Aligned(original, text, subs) && 0 < j <= |subs| && Cut(subs, j, c2) && c2 <= |text|
    requires Cut(subs, j - 1, subs[j - 1].newStart)
    requires from <= subs[j - 1].newStart && |parts| == to + (subs[j - 1].newStart - from)
    requires FaithfulToCut(original, subs, j - 1, subs[j - 1].newStart, parts, mapping)
    ensures FaithfulToCut(original, subs, j, c2,
              parts + text[subs[j - 1].newStart..subs[j - 1].newEnd] + text[subs[j - 1].newEnd..c2],
              mapping + [Shifted(subs[j - 1], from, to)])
  {
    var s := subs[j - 1];
    assert AlignedAt(original, text, subs, j - 1, s.newStart) && AlignedAt(original, text, subs, j, c2);
    CopySub(original, text, subs, j - 1, parts, mapping, from, to);
    CopyGap(original, text, subs, j, s.newEnd, c2, parts + text[s.newStart..s.newEnd], mapping + [Shifted(s, from, to)]);
  }

  lemma {:induction false} CopyGap(
      original: string, text: string, subs: seq<Sub>, k: nat, c1: nat, c2: nat, parts: string, mapping: seq<Sub>)
    requires c1 <= c2 && AlignedAt(original, text, subs, k, c1) && AlignedAt(original, text, subs, k, c2)
    requires Faithful(original[..CutOrig(subs, k, c1)], parts, mapping)
    ensures Faithful(original[..CutOrig(subs, k, c2)], parts + text[c1..c2], mapping)
  {
    var a, b, o1, o2 := PrevNew(subs, k), PrevOrig(subs, k), CutOrig(subs, k, c1), CutOrig(subs, k, c2);
    assert text[c1..c2] == text[a..c2][c1 - a..];
    assert original[o1..o2] == original[b..o2][o1 - b..];
    FaithfulExtend(original[..o1], parts, mapping, text[c1..c2]);
    assert original[..o1] + original[o1..o2] == original[..o2];
  }

  lemma {:induction false} CopySub(
      original: string, text: string, subs: seq<Sub>, k: nat, parts: string, mapping: seq<Sub>, from: nat, to: nat)
    requires Aligned(original, text, subs) && k < |subs| && AlignedAt(original, text, subs, k, subs[k].newStart)
    requires from <= subs[k].newStart && |parts| == to + (subs[k].newStart - from)
    requires Faithful(original[..CutOrig(subs, k, subs[k].newStart)], parts, mapping)
    ensures Cut(subs, k + 1, subs[k].newEnd) && AlignedAt(original, text, subs, k + 1, subs[k].newEnd)
    ensures Faithful(original[..CutOrig(subs, k + 1, subs[k].newEnd)],
              parts + text[subs[k].newStart..subs[k].newEnd], mapping + [Shifted(subs[k], from, to)])
  {
    var s := subs[k];
    CutAfterSub(subs, k + 1);
    assert CutOrig(subs, k, s.newStart) == s.origStart && CutOrig(subs, k + 1, s.newEnd) == s.origEnd;
    FaithfulReplace(original[..s.origStart], parts, mapping, original[s.origStart..s.origEnd], text[s.newStart..s.newEnd]);
    assert original[..s.origStart] + original[s.origStart..s.origEnd] == original[..s.origEnd];
  }

  /** A run of dots cuts no replacement at either end. */
  lemma RunCuts(original: string, text: string, subs: seq<Sub>, r: DotRun) returns (i: nat, j: nat)
    requires Aligned(original, text, subs) && InText(text, subs) && DotAtomic(text, subs)
    requires r.start < r.end && AllDots(text, r.start, r.end)
    ensures i <= j <= |subs| && Cut(subs, i, r.start) && Cut(subs, j, r.end)
    ensures i == SkipTo(subs, 0, r.start) && j == SkipTo(subs, 0, r.end)
  {
    i, j := SkipTo(subs, 0, r.start), SkipTo(subs, 0, r.end);
    forall k | 0 <= k < |subs|
      ensures Clear(subs[k], r)
    {
      RunHoldsDots(text, subs, r, k);
    }
    ClearCuts(subs, r);
  }

  /** A replacement lies before, after or inside the run. */
  predicate Clear(s: Sub, r: DotRun) {
    s.newEnd <= r.start || r.end <= s.newStart || (r.start <= s.newStart && s.newEnd <= r.end)
  }

  lemma ClearCuts(subs: seq<Sub>, r: DotRun)
    requires Ordered(subs) && r.start < r.end && forall k :: 0 <= k < |subs| ==> Clear(subs[k], r)
    ensures SkipTo(subs, 0, r.start) <= SkipTo(subs, 0, r.end)
    ensures Cut(subs, SkipTo(subs, 0, r.start), r.start) && Cut(subs, SkipTo(subs, 0, r.end), r.end)
  {
  }

  lemma RunHoldsDots(text: string, subs: seq<Sub>, r: DotRun, k: nat)
    requires InText(text, subs) && DotAtomic(text, subs) && k < |subs|
    requires r.start < r.end && AllDots(text, r.start, r.end)
    ensures Clear(subs[k], r)
  {
    var s := subs[k];
    if s.newStart < r.end && r.start < s.newEnd {
      var p := if s.newStart < r.start then r.start else s.newStart;
      assert IsDot(text, p);
      assert NewSlice(text, s)[p - s.newStart] == '.';
      assert NewSlice(text, s) == "." && |NewSlice(text, s)| == s.newEnd - s.newStart;
    }
  }

  lemma SkipIs(subs: seq<Sub>, next: nat, oldEnd: nat)
    requires Ordered(subs) && next <= |subs|
    requires next > 0 ==> subs[next - 1].newStart < oldEnd
    requires next < |subs| ==> oldEnd <= subs[next].newStart
    ensures SkipTo(subs, 0, oldEnd) == next
  {
  }

  /** Where a skip ends does not depend on where it starts, as long as it starts before. */
  lemma SkipToSame(subs: seq<Sub>, k: nat, from: nat, oldEnd: nat)
    requires Ordered(subs) && Cut(subs, k, from) && from <= oldEnd
    ensures SkipTo(subs, k, oldEnd) == SkipTo(subs, 0, oldEnd)
  {
    SkipIs(subs, SkipTo(subs, k, oldEnd), oldEnd);
  }

  /** What a refanged text and its map must satisfy before runs are collapsed. */
  ghost predicate Collapsing(original: string, text: string, subs: seq<Sub>, runs: seq<DotRun>) {
    && Aligned(original, text, subs) && InText(text, subs) && DotAtomic(text, subs)
    && Collapsible(text, runs)
  }

  /** The recorded slice of a place runs from one cut of the map to another. */
  ghost predicate PlaceAtCuts(original: string, subs: seq<Sub>, p: Place) {
    forall a, b :: Cut(subs, a, p.run.start) && Cut(subs, b, p.run.end) ==> PlaceAt(original, subs, p, a, b)
  }

  ghost predicate PlaceAt(original: string, subs: seq<Sub>, p: Place, a: nat, b: nat) {
    && a <= |subs| && PrevNew(subs, a) <= p.run.start && CutOrig(subs, a, p.run.start) == p.origStart
    && b <= |subs| && PrevNew(subs, b) <= p.run.end && CutOrig(subs, b, p.run.end) == p.origEnd
    && p.origStart < p.origEnd <= |original|
  }

  lemma PlaceIsAtCuts(original: string, text: string, o: Offsets, r: DotRun)
    requires Aligned(original, text, o.subs) && CollapsibleRun(text, r)
    ensures PlaceAtCuts(original, o.subs, PlaceOf(o, r))
  {
    RangeMapsToRange(o, original, text, r.start, r.end);
    forall a: nat, b: nat | Cut(o.subs, a, r.start) && Cut(o.subs, b, r.end)
      ensures PlaceAt(original, o.subs, PlaceOf(o, r), a, b)
    {
      LookupsAtCut(o, original, text, a, r.start);
      LookupsAtCut(o, original, text, b, r.end);
    }
  }

  ghost predicate PlacesAtCuts(original: string, subs: seq<Sub>, places: seq<Place>) {
    forall k :: 0 <= k < |places| ==> PlaceAtCuts(original, subs, places[k])
  }

  lemma PlacesAreAtCuts(original: string, text: string, o: Offsets, runs: seq<DotRun>)
    requires Collapsing(original, text, o.subs, runs)
    ensures PlacesAtCuts(original, o.subs, Places(o, runs))
  {
    forall k | 0 <= k < |runs|
      ensures PlaceAtCuts(original, o.subs, Places(o, runs)[k])
    {
      assert CollapsibleRun(text, runs[k]);
      PlacesAt(o, runs, k);
      PlaceIsAtCuts(original, text, o, runs[k]);
    }
  }

  lemma {:induction false} PutDotFaithful(original: string, subs: seq<Sub>, c: Cursor, p: Place, a: nat, b: nat)
    requires c.subIndex == a && a <= |subs| && SkipTo(subs, a, p.run.end) == b && PlaceAt(original, subs, p, a, b)
    requires FaithfulToCut(original, subs, a, p.run.start, c.parts, c.mapping)
    ensures var d := PutDot(subs, c, p);
      FaithfulToCut(original, subs, b, p.run.end, d.parts, d.mapping) && d.subIndex == b
  {
    var lo, hi := p.origStart, p.origEnd;
    FaithfulReplace(original[..lo], c.parts, c.mapping, original[lo..hi], ".");
    assert original[..lo] + original[lo..hi] == original[..hi];
  }

  /** The cursor stands at a cut, and its output is faithful up to there. */
  ghost predicate CursorFaithful(original: string, subs: seq<Sub>, c: Cursor, at: nat) {
    Cut(subs, c.subIndex, at) && FaithfulToCut(original, subs, c.subIndex, at, c.parts, c.mapping)
  }

  lemma {:induction false} StepFaithful(original: string, text: string, subs: seq<Sub>, c: Cursor, p: Place, d: Cursor)
    requires Aligned(original, text, subs) && InText(text, subs) && DotAtomic(text, subs) && CollapsibleRun(text, p.run)
    requires IsStep(text, subs, c, p, d) && PlaceAtCuts(original, subs, p) && CursorFaithful(original, subs, c, c.atOld)
    ensures CursorFaithful(original, subs, d, d.atOld)
  {
    var r := p.run;
    var a, b := RunCuts(original, text, subs, r);
    SkipToSame(subs, c.subIndex, c.atOld, r.start);
    SkipToSame(subs, a, r.start, r.end);
    CopyFaithful(original, text, subs, c.subIndex, c.atOld, a, r.start, c.parts, c.mapping);
    assert PlaceAt(original, subs, p, a, b);
    PutDotFaithful(original, subs, CopyTo(text, subs, c, r.start), p, a, b);
  }

  lemma {:induction false} TraceFaithful(
      original: string, text: string, subs: seq<Sub>, runs: seq<DotRun>, places: seq<Place>, cs: seq<Cursor>, i: nat)
    requires Collapsing(original, text, subs, runs) && PlacesOf(runs, places) && PlacesAtCuts(original, subs, places)
    requires IsTrace(text, subs, places, cs) && i <= |runs|
    ensures CursorFaithful(original, subs, cs[i], cs[i].atOld)
  {
    if i == 0 {
      assert original[..0] == "";
    } else {
      TraceFaithful(original, text, subs, runs, places, cs, i - 1);
      assert StepAt(text, subs, places, cs, i - 1);
      assert CollapsibleRun(text, runs[i - 1]);
      StepFaithful(original, text, subs, cs[i - 1], places[i - 1], cs[i]);
    }
  }

  lemma {:induction false} LastCopyFaithful(original: string, text: string, subs: seq<Sub>, c: Cursor)
    requires Aligned(original, text, subs) && c.atOld <= |text| && CursorFaithful(original, subs, c, c.atOld)
    ensures var d := CopyTo(text, subs, c, |text|); Faithful(original, d.parts, d.mapping)
  {
    LastCut(original, text, subs);
    SkipToSame(subs, c.subIndex, c.atOld, |text|);
    CopyFaithful(original, text, subs, c.subIndex, c.atOld, |subs|, |text|, c.parts, c.mapping);
    assert original[..|original|] == original;
  }

  /** Collapsing runs of dots on top of a faithful map gives a faithful map. */
  lemma {:induction false} PassFaithful(original: string, text: string, o: Offsets, runs: seq<DotRun>, cs: seq<Cursor>, c: Cursor)
    requires Collapsing(original, text, o.subs, runs) && IsPass(text, o.subs, Places(o, runs), cs, c)
    ensures Faithful(original, c.parts, c.mapping)
  {
    PlacesAreAtCuts(original, text, o, runs);
    TraceFaithful(original, text, o.subs, runs, Places(o, runs), cs, |runs|);
    LastCopyFaithful(original, text, o.subs, cs[|runs|]);
  }

  lemma LastCut(original: string, text: string, subs: seq<Sub>)
    requires Aligned(original, text, subs)
    ensures Cut(subs, |subs|, |text|) && SkipTo(subs, 0, |text|) == |subs|
    ensures PrevNew(subs, |subs|) <= |text| && CutOrig(subs, |subs|, |text|) == |original|
  {
    SkipIs(subs, |subs|, |text|);
    assert Cut(subs, |subs|, |text|);
    assert AlignedAt(original, text, subs, |subs|, |text|);
  }

  // ── Which entries count as defangs ────────────────────────────────────

  /** How many dots the first k runs lose. */
  function Surplus(runs: seq<DotRun>, k: nat): int
    requires k <= |runs|
  {
    if k == 0 then 0 else Surplus(runs, k - 1) + (runs[k - 1].end - runs[k - 1].start - 1)
  }

  /** Where the dot of run k stands in the collapsed text. */
  function DotPosition(runs: seq<DotRun>, k: nat): int
    requires k < |runs|
  {
    runs[k].start - Surplus(runs, k)
  }

  /** The dots of those among the first i runs that held no defang dot. */
  function PlainDots(runs: seq<DotRun>, i: nat): set<int>
    requires i <= |runs|
  {
    if i == 0 then {}
    else PlainDots(runs, i - 1) + (if runs[i - 1].isDefang then {} else {DotPosition(runs, i - 1)})
  }

  lemma {:induction false} PlainDotsExact(runs: seq<DotRun>, i: nat, p: int)
    requires i <= |runs|
    ensures p in PlainDots(runs, i) <==> exists k :: 0 <= k < i && !runs[k].isDefang && DotPosition(runs, k) == p
  {
    if i > 0 {
      PlainDotsExact(runs, i - 1, p);
    }
  }

  lemma {:induction false} TraceLength(text: string, subs: seq<Sub>, runs: seq<DotRun>, places: seq<Place>, cs: seq<Cursor>, i: nat)
    requires IsTrace(text, subs, places, cs) && PlacesOf(runs, places) && i <= |runs|
    ensures |cs[i].parts| == EndOf(runs, i) - Surplus(runs, i)
  {
    if i > 0 {
      TraceLength(text, subs, runs, places, cs, i - 1);
      TraceAt(text, subs, runs, places, cs, i - 1);
      assert StepAt(text, subs, places, cs, i - 1);
      CopyToParts(text, subs, cs[i - 1], runs[i - 1].start);
    }
  }

  /** Every entry but a plain dot is a defang, and all entries lie in the output. */
  ghost predicate DefangsAre(c: Cursor, plain: set<int>) {
    && (forall m :: m in c.defangs <==> m in c.mapping && m.newStart !in plain)
    && (forall m :: m in c.mapping ==> m.newStart < |c.parts|)
    && (forall p :: p in plain ==> p < |c.parts|)
  }

  lemma {:induction false} ShiftedBounds(subs: seq<Sub>, index: nat, next: nat, from: nat, to: nat, oldEnd: nat)
    requires index <= next <= |subs| && Ordered(subs)
    requires forall k :: index <= k < next ==> subs[k].newStart < oldEnd
    ensures forall m :: m in ShiftedSubs(subs, index, next, from, to) ==> to <= m.newStart < to + (oldEnd - from)
    decreases next
  {
    if index < next {
      ShiftedBounds(subs, index, next - 1, from, to, oldEnd);
    }
  }

  lemma CopyKeepsDefangs(text: string, subs: seq<Sub>, c: Cursor, oldEnd: nat, plain: set<int>)
    requires Ordered(subs) && c.subIndex <= |subs| && c.atOld <= oldEnd <= |text| && DefangsAre(c, plain)
    ensures DefangsAre(CopyTo(text, subs, c, oldEnd), plain)
  {
    var next := SkipTo(subs, c.subIndex, oldEnd);
    ShiftedBounds(subs, c.subIndex, next, c.atOld, |c.parts|, oldEnd);
  }

  lemma PutDotKeepsDefangs(subs: seq<Sub>, c: Cursor, p: Place, plain: set<int>)
    requires c.subIndex <= |subs| && DefangsAre(c, plain)
    ensures DefangsAre(PutDot(subs, c, p), if p.run.isDefang then plain else plain + {|c.parts|})
  {
  }

  lemma StepDefangs(text: string, subs: seq<Sub>, c: Cursor, p: Place, d: Cursor, plain: set<int>)
    requires IsStep(text, subs, c, p, d) && DefangsAre(c, plain)
    ensures DefangsAre(d, if p.run.isDefang then plain else plain + {|c.parts| + (p.run.start - c.atOld)})
  {
    CopyKeepsDefangs(text, subs, c, p.run.start, plain);
    CopyToParts(text, subs, c, p.run.start);
    PutDotKeepsDefangs(subs, CopyTo(text, subs, c, p.run.start), p, plain);
  }

  lemma {:induction false} TraceDefangs(text: string, subs: seq<Sub>, runs: seq<DotRun>, places: seq<Place>, cs: seq<Cursor>, i: nat)
    requires IsTrace(text, subs, places, cs) && PlacesOf(runs, places) && i <= |runs|
    ensures DefangsAre(cs[i], PlainDots(runs, i))
  {
    if i > 0 {
      TraceDefangs(text, subs, runs, places, cs, i - 1);
      assert StepAt(text, subs, places, cs, i - 1);
      TraceLength(text, subs, runs, places, cs, i - 1);
      TraceAt(text, subs, runs, places, cs, i - 1);
      StepDefangs(text, subs, cs[i - 1], places[i - 1], cs[i], PlainDots(runs, i - 1));
    }
  }

  /** After collapsing, an entry is a defang unless it is the dot of a run that held no defang dot. */
  lemma PassDefangs(text: string, subs: seq<Sub>, runs: seq<DotRun>, places: seq<Place>, cs: seq<Cursor>, c: Cursor, m: Sub)
    requires IsPass(text, subs, places, cs, c) && PlacesOf(runs, places)
    ensures m in c.defangs <==>
      m in c.mapping && !exists k :: 0 <= k < |runs| && !runs[k].isDefang && DotPosition(runs, k) == m.newStart
  {
    TraceDefangs(text, subs, runs, places, cs, |runs|);
    CopyKeepsDefangs(text, subs, cs[|runs|], |text|, PlainDots(runs, |runs|));
    PlainDotsExact(runs, |runs|, m.newStart);
  }

  // ── The defangs stay in order ─────────────────────────────────────────

  ghost predicate OrderedWithin(subs: seq<Sub>, length: nat) {
    Ordered(subs) && forall k :: 0 <= k < |subs| ==> subs[k].newEnd <= length
  }

  lemma OrderedConcat(a: seq<Sub>, b: seq<Sub>, middle: nat, length: nat)
    requires OrderedWithin(a, middle) && OrderedWithin(b, length) && middle <= length
    requires forall k :: 0 <= k < |b| ==> middle <= b[k].newStart
    ensures OrderedWithin(a + b, length)
  {
  }

  lemma {:induction false} ShiftedOrdered(subs: seq<Sub>, index: nat, next: nat, from: nat, to: nat, oldEnd: nat)
    requires index <= next <= |subs| && Ordered(subs) && from <= oldEnd
    requires forall k :: index <= k < next ==> subs[k].newEnd <= oldEnd
    ensures OrderedWithin(ShiftedSubs(subs, index, next, from, to), to + (oldEnd - from))
    ensures forall k :: 0 <= k < |ShiftedSubs(subs, index, next, from, to)| ==> to <= ShiftedSubs(subs, index, next, from, to)[k].newStart
    decreases next
  {
    if index < next {
      var s := subs[next - 1];
      if s.newStart >= from {
        ShiftedOrdered(subs, index, next - 1, from, to, s.newStart);
        var front := ShiftedSubs(subs, index, next - 1, from, to);
        OrderedConcat(front, [Shifted(s, from, to)], to + (s.newStart - from), to + (oldEnd - from));
      } else {
        ShiftedOrdered(subs, index, next - 1, from, to, oldEnd);
      }
    }
  }

  lemma CopyKeepsOrder(text: string, subs: seq<Sub>, c: Cursor, oldEnd: nat)
    requires Ordered(subs) && c.subIndex <= |subs| && c.atOld <= oldEnd <= |text|
    requires Cut(subs, SkipTo(subs, c.subIndex, oldEnd), oldEnd) && OrderedWithin(c.defangs, |c.parts|)
    ensures var d := CopyTo(text, subs, c, oldEnd); OrderedWithin(d.defangs, |d.parts|)
  {
    var next := SkipTo(subs, c.subIndex, oldEnd);
    ShiftedOrdered(subs, c.subIndex, next, c.atOld, |c.parts|, oldEnd);
    OrderedConcat(c.defangs, ShiftedSubs(subs, c.subIndex, next, c.atOld, |c.parts|), |c.parts|, |c.parts| + (oldEnd - c.atOld));
    CopyToParts(text, subs, c, oldEnd);
  }

  lemma StepKeepsOrder(original: string, text: string, subs: seq<Sub>, c: Cursor, p: Place, d: Cursor)
    requires Aligned(original, text, subs) && InText(text, subs) && DotAtomic(text, subs) && CollapsibleRun(text, p.run)
    requires IsStep(text, subs, c, p, d) && Cut(subs, c.subIndex, c.atOld) && OrderedWithin(c.defangs, |c.parts|)
    ensures Cut(subs, d.subIndex, d.atOld) && OrderedWithin(d.defangs, |d.parts|)
  {
    var a, b := RunCuts(original, text, subs, p.run);
    SkipToSame(subs, c.subIndex, c.atOld, p.run.start);
    SkipToSame(subs, a, p.run.start, p.run.end);
    CopyKeepsOrder(text, subs, c, p.run.start);
    var copied := CopyTo(text, subs, c, p.run.start);
    OrderedConcat(copied.defangs, [Sub(|copied.parts|, |copied.parts| + 1, p.origStart, p.origEnd)],
      |copied.parts|, |copied.parts| + 1);
  }

  lemma {:induction false} TraceKeepsOrder(
      original: string, text: string, subs: seq<Sub>, runs: seq<DotRun>, places: seq<Place>, cs: seq<Cursor>, i: nat)
    requires Collapsing(original, text, subs, runs) && PlacesOf(runs, places)
    requires IsTrace(text, subs, places, cs) && i <= |runs|
    ensures Cut(subs, cs[i].subIndex, cs[i].atOld) && OrderedWithin(cs[i].defangs, |cs[i].parts|)
  {
    if i > 0 {
      TraceKeepsOrder(original, text, subs, runs, places, cs, i - 1);
      assert StepAt(text, subs, places, cs, i - 1);
      assert CollapsibleRun(text, runs[i - 1]);
      StepKeepsOrder(original, text, subs, cs[i - 1], places[i - 1], cs[i]);
    }
  }

  /** The defangs of a pass can be searched by bisection. */
  lemma PassDefangsOrdered(
      original: string, text: string, subs: seq<Sub>, runs: seq<DotRun>, places: seq<Place>, cs: seq<Cursor>, c: Cursor)
    requires Collapsing(original, text, subs, runs) && PlacesOf(runs, places) && IsPass(text, subs, places, cs, c)
    ensures Ordered(c.defangs)
  {
    TraceKeepsOrder(original, text, subs, runs, places, cs, |runs|);
    LastCut(original, text, subs);
    SkipToSame(subs, cs[|runs|].subIndex, cs[|runs|].atOld, |text|);
    CopyKeepsOrder(text, subs, cs[|runs|], |text|);
  }

  lemma StepDot(text: string, subs: seq<Sub>, c: Cursor, p: Place, d: Cursor)
    requires IsStep(text, subs, c, p, d)
    ensures var at := |c.parts| + (p.run.start - c.atOld); Sub(at, at + 1, p.origStart, p.origEnd) in d.mapping
    ensures forall m :: m in c.mapping ==> m in d.mapping
  {
    CopyToParts(text, subs, c, p.run.start);
  }

  lemma {:induction false} TraceKeeps(text: string, subs: seq<Sub>, places: seq<Place>, cs: seq<Cursor>, i: nat, j: nat, m: Sub)
    requires IsTrace(text, subs, places, cs) && i <= j <= |places| && m in cs[i].mapping
    ensures m in cs[j].mapping
    decreases j
  {
    if i < j {
      TraceKeeps(text, subs, places, cs, i, j - 1, m);
      assert StepAt(text, subs, places, cs, j - 1);
      StepDot(text, subs, cs[j - 1], places[j - 1], cs[j]);
    }
  }

  /** The dot of every run is recorded with the slice of the original that the whole run stood for. */
  lemma PassRecordsDot(
      text: string, subs: seq<Sub>, runs: seq<DotRun>, places: seq<Place>, cs: seq<Cursor>, c: Cursor, k: nat)
    requires IsPass(text, subs, places, cs, c) && PlacesOf(runs, places) && k < |runs|
    ensures DotPosition(runs, k) >= 0
    ensures Sub(DotPosition(runs, k), DotPosition(runs, k) + 1, places[k].origStart, places[k].origEnd) in c.mapping
  {
    assert StepAt(text, subs, places, cs, k);
    TraceLength(text, subs, runs, places, cs, k);
    TraceAt(text, subs, runs, places, cs, k);
    StepDot(text, subs, cs[k], places[k], cs[k + 1]);
    TraceKeeps(text, subs, places, cs, k + 1, |places|,
      Sub(DotPosition(runs, k), DotPosition(runs, k) + 1, places[k].origStart, places[k].origEnd));
  }

  // ── The whole step ────────────────────────────────────────────────────

  /** The runs a text must lose: obfuscated, maximal, inside a host span. */
  ghost predicate MustCollapse(text: string, f: Found, o: Offsets, homoglyphs: set<nat>, r: DotRun)
    requires FoundIn(f, |text|) && Ordered(o.subs)
  {
    exists s :: IsHostSpan(text, f, s) && s.end <= |text| && IsObfuscatedRun(text, o, homoglyphs, s, r)
  }

  /** What collapsing gives: exactly the runs the text must lose are written as one dot each. */
  ghost predicate IsCollapse(
      text: string, f: Found, o: Offsets, homoglyphs: set<nat>, runs: seq<DotRun>, scanned: string, offsets: Offsets)
    requires FoundIn(f, |text|) && Ordered(o.subs)
  {
    && Collapsible(text, runs)
    && (forall r :: r in runs <==> MustCollapse(text, f, o, homoglyphs, r))
    && if runs == [] then scanned == text && offsets == o else IsPassResult(text, o, runs, scanned, offsets)
  }

  ghost predicate IsPassResult(text: string, o: Offsets, runs: seq<DotRun>, scanned: string, offsets: Offsets)
    requires Ordered(o.subs)
  {
    exists cs, c :: IsPass(text, o.subs, Places(o, runs), cs, c) && scanned == c.parts && offsets == Offsets(c.mapping, c.defangs, {})
  }

  lemma {:induction false} SameRuns(text: string, a: seq<DotRun>, b: seq<DotRun>)
    requires Collapsible(text, a) && Collapsible(text, b) && SameMembers(a, b)
    ensures a == b
    decreases |a|
  {
    assert (a == [] || a[0] in a) && (b == [] || b[0] in b);
    if a != [] {
      SameFronts(text, a, b);
      SameRuns(text, a[..|a| - 1], b[..|b| - 1]);
      assert a == a[..|a| - 1] + [a[|a| - 1]] && b == b[..|b| - 1] + [b[|b| - 1]];
    }
  }

  ghost predicate SameMembers(a: seq<DotRun>, b: seq<DotRun>) {
    forall r :: r in a <==> r in b
  }

  lemma SameFronts(text: string, a: seq<DotRun>, b: seq<DotRun>)
    requires Collapsible(text, a) && Collapsible(text, b) && SameMembers(a, b) && a != [] && b != []
    ensures a[|a| - 1] == b[|b| - 1]
    ensures Collapsible(text, a[..|a| - 1]) && Collapsible(text, b[..|b| - 1]) && SameMembers(a[..|a| - 1], b[..|b| - 1])
  {
    LastRun(text, a, b);
    WithoutLast(text, a);
    WithoutLast(text, b);
    var front, other := a[..|a| - 1], b[..|b| - 1];
    forall r
      ensures r in front <==> r in other
    {
      assert r in front <==> r in a && r != a[|a| - 1];
      assert r in other <==> r in b && r != b[|b| - 1];
    }
  }

  lemma LastRun(text: string, a: seq<DotRun>, b: seq<DotRun>)
    requires Collapsible(text, a) && Collapsible(text, b) && a != [] && b != [] && SameMembers(a, b)
    ensures a[|a| - 1] == b[|b| - 1]
  {
    var x, y := a[|a| - 1], b[|b| - 1];
    assert x in a && y in b;
    var i :| 0 <= i < |b| && b[i] == x;
    var j :| 0 <= j < |a| && a[j] == y;
    assert CollapsibleRun(text, x) && CollapsibleRun(text, y);
    assert i < |b| - 1 ==> x.end <= y.start;
    assert j < |a| - 1 ==> y.end <= x.start;
  }

  lemma WithoutLast(text: string, a: seq<DotRun>)
    requires Collapsible(text, a) && a != []
    ensures Collapsible(text, a[..|a| - 1])
    ensures forall r :: r in a[..|a| - 1] <==> r in a && r != a[|a| - 1]
  {
    var front, last := a[..|a| - 1], a[|a| - 1];
    assert CollapsibleRun(text, last);
    forall i | 0 <= i < |front|
      ensures CollapsibleRun(text, front[i]) && front[i] != last
    {
      assert CollapsibleRun(text, a[i]) && a[i].end <= a[|a| - 1].start;
    }
    assert a == front + [last];
  }

  lemma {:induction false} SameTrace(text: string, subs: seq<Sub>, places: seq<Place>, cs: seq<Cursor>, ds: seq<Cursor>, i: nat)
    requires IsTrace(text, subs, places, cs) && IsTrace(text, subs, places, ds) && i <= |places|
    ensures cs[i] == ds[i]
  {
    if i > 0 {
      SameTrace(text, subs, places, cs, ds, i - 1);
      assert StepAt(text, subs, places, cs, i - 1) && StepAt(text, subs, places, ds, i - 1);
      SameStep(text, subs, cs[i - 1], places[i - 1], cs[i], ds[i]);
    }
  }

  lemma SameStep(text: string, subs: seq<Sub>, c: Cursor, p: Place, d: Cursor, e: Cursor)
    requires IsStep(text, subs, c, p, d) && IsStep(text, subs, c, p, e)
    ensures d == e
  {
  }

  /** Collapsing has one result: neither the runs nor the text and map written for them are left open. */
  lemma CollapseUnique(
      text: string, f: Found, o: Offsets, homoglyphs: set<nat>, runs: seq<DotRun>, scanned: string, offsets: Offsets,
      otherRuns: seq<DotRun>, otherScanned: string, otherOffsets: Offsets)
    requires FoundIn(f, |text|) && Ordered(o.subs)
    requires IsCollapse(text, f, o, homoglyphs, runs, scanned, offsets)
    requires IsCollapse(text, f, o, homoglyphs, otherRuns, otherScanned, otherOffsets)
    ensures runs == otherRuns && scanned == otherScanned && offsets == otherOffsets
  {
    SameRuns(text, runs, otherRuns);
    if runs != [] {
      var cs, c :| IsPass(text, o.subs, Places(o, runs), cs, c) && scanned == c.parts && offsets == Offsets(c.mapping, c.defangs, {});
      var ds, d :| IsPass(text, o.subs, Places(o, runs), ds, d)
        && otherScanned == d.parts && otherOffsets == Offsets(d.mapping, d.defangs, {});
      SameTrace(text, o.subs, Places(o, runs), cs, ds, |runs|);
    }
  }

  /** The scanned text and map, and the runs that were collapsed. */
  method CollapseObfuscatedHostDots(text: string, f: Found, o: Offsets, homoglyphs: set<nat>)
    returns (scanned: string, offsets: Offsets, ghost runs: seq<DotRun>, ghost cs: seq<Cursor>, ghost c: Cursor)
    requires FoundIn(f, |text|) && Ordered(o.subs)
    ensures IsCollapse(text, f, o, homoglyphs, runs, scanned, offsets)
    ensures runs != [] ==> IsPass(text, o.subs, Places(o, runs), cs, c)
    ensures runs != [] ==> scanned == c.parts && offsets == Offsets(c.mapping, c.defangs, {})
  {
    runs, cs, c := [], [], ORIGIN;
    if homoglyphs == {} && o.defangDots == {} {
      return text, o, [], cs, c;
    }
    if !Contains(text, "..") {
      forall r
        ensures !MustCollapse(text, f, o, homoglyphs, r)
      {
        NoRunWithoutTwoDots(text, f, o, homoglyphs, r);
      }
      return text, o, [], cs, c;
    }
    var spans := CollapsibleHostSpans(text, f);
    var found := ObfuscatedDotRuns(text, o, homoglyphs, spans);
    runs := found;
    RunsAreExact(text, f, o, homoglyphs, spans, runs);
    if found == [] {
      return text, o, [], cs, c;
    }
    scanned, offsets, cs, c := ApplyDotCollapses(text, o, found);
  }

  lemma NoRunWithoutTwoDots(text: string, f: Found, o: Offsets, homoglyphs: set<nat>, r: DotRun)
    requires FoundIn(f, |text|) && Ordered(o.subs)
    ensures MustCollapse(text, f, o, homoglyphs, r) ==> Contains(text, "..")
  {
    if MustCollapse(text, f, o, homoglyphs, r) {
      var s :| IsHostSpan(text, f, s) && s.end <= |text| && IsObfuscatedRun(text, o, homoglyphs, s, r);
      TwoDotsOccur(text, r.start, r.end);
    }
  }

  lemma TwoDotsOccur(text: string, lo: nat, hi: nat)
    requires lo + 2 <= hi && AllDots(text, lo, hi)
    ensures Contains(text, "..")
  {
    assert IsDot(text, lo) && IsDot(text, lo + 1);
    assert OccursAt(text, "..", lo);
  }

  lemma RunsAreExact(text: string, f: Found, o: Offsets, homoglyphs: set<nat>, spans: seq<Span>, runs: seq<DotRun>)
    requires FoundIn(f, |text|) && Ordered(o.subs) && SpansIn(spans, |text|)
    requires forall s :: s in spans <==> IsHostSpan(text, f, s)
    requires forall r :: r in runs <==> exists k :: 0 <= k < |spans| && IsObfuscatedRun(text, o, homoglyphs, spans[k], r)
    requires RunsApart(runs)
    ensures forall r :: r in runs <==> MustCollapse(text, f, o, homoglyphs, r)
    ensures Collapsible(text, runs)
  {
    forall r
      ensures r in runs <==> MustCollapse(text, f, o, homoglyphs, r)
    {
      if r in runs {
        var k :| 0 <= k < |spans| && IsObfuscatedRun(text, o, homoglyphs, spans[k], r);
        assert spans[k] in spans;
      }
      if MustCollapse(text, f, o, homoglyphs, r) {
        var s :| IsHostSpan(text, f, s) && s.end <= |text| && IsObfuscatedRun(text, o, homoglyphs, s, r);
        assert s in spans;
        var k :| 0 <= k < |spans| && spans[k] == s;
      }
    }
    forall i | 0 <= i < |runs|
      ensures CollapsibleRun(text, runs[i])
    {
      assert runs[i] in runs;
    }
  }

  /** Refanging and then collapsing loses nothing: the final map rebuilds the original, and only dots were removed. */
  lemma {:induction false} PreparedTextLossless(
      original: string, text: string, o: Offsets, runs: seq<DotRun>, cs: seq<Cursor>, c: Cursor)
    requires Faithful(original, text, o.subs) && InText(text, o.subs) && DotAtomic(text, o.subs) && Collapsible(text, runs)
    requires Ordered(o.subs) && IsPass(text, o.subs, Places(o, runs), cs, c)
    ensures Faithful(original, c.parts, c.mapping) && Aligned(original, c.parts, c.mapping)
    ensures Rebuild(original, c.parts, c.mapping) == original
    ensures c.parts == CollapsedText(text, runs) && NonDots(c.parts) == NonDots(text)
    ensures |c.parts| + |runs| <= |text|
  {
    FaithfulAligned(original, text, o.subs);
    PassFaithful(original, text, o, runs, cs, c);
    FaithfulAligned(original, c.parts, c.mapping);
    Lossless(original, c.parts, c.mapping);
    PassWritesText(text, o.subs, runs, Places(o, runs), cs, c);
    CollapsedTextKeeps(text, runs);
  }
}
