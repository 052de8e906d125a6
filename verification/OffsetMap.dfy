/** Refanging and the map from refanged text back to the original text. */
module OffsetMap {

  /** text[newStart..newEnd] replaced original[origStart..origEnd]. */
  datatype Sub = Sub(newStart: nat, newEnd: nat, origStart: nat, origEnd: nat)

  datatype Offsets = Offsets(subs: seq<Sub>, defangs: seq<Sub>, defangDots: set<nat>) {

    function Start(pos: nat): nat
      requires Ordered(subs)
    {
      var index := BisectRight(subs, pos, 0, |subs|);
      if index == 0 then pos
      else
        var s := subs[index - 1];
        if pos < s.newEnd then s.origStart else s.origEnd + (pos - s.newEnd)
    }

    function End(pos: nat): nat
      requires Ordered(subs)
    {
      if pos == 0 then 0
      else
        var index := BisectRight(subs, pos - 1, 0, |subs|);
        if index == 0 then pos
        else
          var s := subs[index - 1];
          if pos - 1 < s.newEnd then s.origEnd else s.origEnd + (pos - s.newEnd)
    }

    predicate Defanged(start: nat, end: nat)
      requires Ordered(defangs)
    {
      var index := BisectLeft(defangs, end, 0, |defangs|);
      index > 0 && defangs[index - 1].newEnd > start
    }
  }

  /** Sorted and disjoint in the new text, with no empty replacement. */
  ghost predicate Ordered(subs: seq<Sub>) {
    && (forall i :: 0 <= i < |subs| ==> subs[i].newStart < subs[i].newEnd)
    && (forall i, j :: 0 <= i < j < |subs| ==> subs[i].newEnd <= subs[j].newStart)
  }

  /** How many substitutions start at or before pos. */
  function BisectRight(subs: seq<Sub>, pos: nat, lo: nat, hi: nat): (index: nat)
    requires Ordered(subs) && lo <= hi <= |subs|
    requires forall k :: 0 <= k < lo ==> subs[k].newStart <= pos
    requires forall k :: hi <= k < |subs| ==> pos < subs[k].newStart
    ensures index <= |subs|
    ensures forall k :: 0 <= k < |subs| ==> (k < index <==> subs[k].newStart <= pos)
    decreases hi - lo
  {
    if lo == hi then lo
    else
      var mid := (lo + hi) / 2;
      if pos < subs[mid].newStart then BisectRight(subs, pos, lo, mid) else BisectRight(subs, pos, mid + 1, hi)
  }

  /** How many substitutions start before pos. */
  function BisectLeft(subs: seq<Sub>, pos: nat, lo: nat, hi: nat): (index: nat)
    requires Ordered(subs) && lo <= hi <= |subs|
    requires forall k :: 0 <= k < lo ==> subs[k].newStart < pos
    requires forall k :: hi <= k < |subs| ==> pos <= subs[k].newStart
    ensures index <= |subs|
    ensures forall k :: 0 <= k < |subs| ==> (k < index <==> subs[k].newStart < pos)
    decreases hi - lo
  {
    if lo == hi then lo
    else
      var mid := (lo + hi) / 2;
      if subs[mid].newStart < pos then BisectLeft(subs, pos, mid + 1, hi) else BisectLeft(subs, pos, lo, mid)
  }

  /** The index is determined by its two neighbours. */
  lemma BisectIs(subs: seq<Sub>, pos: nat, index: nat)
    requires Ordered(subs) && index <= |subs|
    requires index > 0 ==> subs[index - 1].newStart <= pos
    requires index < |subs| ==> pos < subs[index].newStart
    ensures BisectRight(subs, pos, 0, |subs|) == index
  {
    if index > 0 {
      assert subs[index - 1].newStart <= pos;
    }
    if index < |subs| {
      assert !(subs[index].newStart <= pos);
    }
  }

  /** Looking one entry up by bisection decides whether any recorded defang overlaps the range. */
  lemma DefangedIffOverlap(o: Offsets, start: nat, end: nat)
    requires Ordered(o.defangs)
    ensures o.Defanged(start, end)
       <==> exists k :: 0 <= k < |o.defangs| && o.defangs[k].newStart < end && start < o.defangs[k].newEnd
  {
    var index := BisectLeft(o.defangs, end, 0, |o.defangs|);
    if k :| 0 <= k < |o.defangs| && o.defangs[k].newStart < end && start < o.defangs[k].newEnd {
      assert k < index;
      if k < index - 1 {
        assert o.defangs[k].newEnd <= o.defangs[index - 1].newStart < o.defangs[index - 1].newEnd;
      }
    }
  }

  // ── What a map must mean ──────────────────────────────────────────────

  /** text is original with exactly the recorded slices replaced. */
  ghost predicate Faithful(original: string, text: string, subs: seq<Sub>)
    decreases |subs|
  {
    if subs == [] then text == original
    else
      var s := subs[|subs| - 1];
      && s.newStart < s.newEnd <= |text|
      && s.origStart < s.origEnd <= |original|
      && text[s.newEnd..] == original[s.origEnd..]
      && Faithful(original[..s.origStart], text[..s.newStart], subs[..|subs| - 1])
  }

  lemma {:induction false} FaithfulOrdered(original: string, text: string, subs: seq<Sub>)
    requires Faithful(original, text, subs)
    ensures Ordered(subs)
    ensures forall k :: 0 <= k < |subs| ==> subs[k].newEnd <= |text| && subs[k].origStart < subs[k].origEnd <= |original|
    ensures forall i, j :: 0 <= i < j < |subs| ==> subs[i].origEnd <= subs[j].origStart
    decreases |subs|
  {
    if subs != [] {
      var s := subs[|subs| - 1];
      FaithfulOrdered(original[..s.origStart], text[..s.newStart], subs[..|subs| - 1]);
    }
  }

  /** Every recorded interval of the text put back as its slice of the original. */
  function Rebuild(original: string, text: string, subs: seq<Sub>): string
    requires Ordered(subs)
    requires forall k :: 0 <= k < |subs| ==> subs[k].newEnd <= |text| && subs[k].origStart <= subs[k].origEnd <= |original|
    decreases |subs|
  {
    if subs == [] then text
    else
      var s := subs[|subs| - 1];
      Rebuild(original, text[..s.newStart], subs[..|subs| - 1]) + original[s.origStart..s.origEnd] + text[s.newEnd..]
  }

  lemma {:induction false} RebuildPrefix(original: string, cut: nat, text: string, subs: seq<Sub>)
    requires cut <= |original| && Faithful(original[..cut], text, subs)
    ensures Ordered(subs)
    ensures forall k :: 0 <= k < |subs| ==> subs[k].newEnd <= |text| && subs[k].origStart <= subs[k].origEnd <= |original|
    ensures Rebuild(original, text, subs) == original[..cut]
    decreases |subs|
  {
    FaithfulOrdered(original[..cut], text, subs);
    if subs != [] {
      var s := subs[|subs| - 1];
      assert original[..cut][..s.origStart] == original[..s.origStart];
      RebuildPrefix(original, s.origStart, text[..s.newStart], subs[..|subs| - 1]);
      assert original[..cut][s.origEnd..] == original[s.origEnd..cut];
      assert original[..s.origStart] + original[s.origStart..s.origEnd] + original[s.origEnd..cut] == original[..cut];
    }
  }

  /** The map is lossless: putting every recorded slice back rebuilds the original text. */
  lemma Lossless(original: string, text: string, subs: seq<Sub>)
    requires Faithful(original, text, subs)
    ensures Ordered(subs)
    ensures forall k :: 0 <= k < |subs| ==> subs[k].newEnd <= |text| && subs[k].origStart <= subs[k].origEnd <= |original|
    ensures Rebuild(original, text, subs) == original
  {
    assert original[..|original|] == original;
    RebuildPrefix(original, |original|, text, subs);
  }

  // ── Extending a map on the right ──────────────────────────────────────

  lemma {:induction false} FaithfulExtend(original: string, text: string, subs: seq<Sub>, more: string)
    requires Faithful(original, text, subs)
    ensures Faithful(original + more, text + more, subs)
  {
    if subs != [] {
      var s := subs[|subs| - 1];
      assert (original + more)[..s.origStart] == original[..s.origStart];
      assert (text + more)[..s.newStart] == text[..s.newStart];
      assert (original + more)[s.origEnd..] == original[s.origEnd..] + more;
      assert (text + more)[s.newEnd..] == text[s.newEnd..] + more;
    }
  }

  lemma {:induction false} FaithfulReplace(original: string, text: string, subs: seq<Sub>, token: string, replacement: string)
    requires Faithful(original, text, subs) && token != "" && replacement != ""
    ensures Faithful(original + token, text + replacement,
              subs + [Sub(|text|, |text| + |replacement|, |original|, |original| + |token|)])
  {
    var all := subs + [Sub(|text|, |text| + |replacement|, |original|, |original| + |token|)];
    assert all[..|all| - 1] == subs;
    assert (original + token)[..|original|] == original;
    assert (text + replacement)[..|text|] == text;
  }

  // ── Cutting a map between two replacements ────────────────────────────

  /** No replacement straddles the cut, and the first k start before it. */
  ghost predicate Cut(subs: seq<Sub>, k: nat, c: nat) {
    && k <= |subs|
    && (forall i :: 0 <= i < k ==> subs[i].newEnd <= c)
    && (forall i :: k <= i < |subs| ==> c <= subs[i].newStart)
  }

  function PrevNew(subs: seq<Sub>, k: nat): nat
    requires k <= |subs|
  {
    if k == 0 then 0 else subs[k - 1].newEnd
  }

  function PrevOrig(subs: seq<Sub>, k: nat): nat
    requires k <= |subs|
  {
    if k == 0 then 0 else subs[k - 1].origEnd
  }

  /** The original position of a cut. */
  function CutOrig(subs: seq<Sub>, k: nat, c: nat): nat
    requires k <= |subs| && PrevNew(subs, k) <= c
  {
    PrevOrig(subs, k) + (c - PrevNew(subs, k))
  }

  /** The unrecorded text just before a cut is the original's. */
  lemma {:induction false} GapBeforeCut(original: string, text: string, subs: seq<Sub>, k: nat, c: nat)
    requires Faithful(original, text, subs) && Cut(subs, k, c) && c <= |text|
    ensures PrevNew(subs, k) <= c && CutOrig(subs, k, c) <= |original|
    ensures text[PrevNew(subs, k)..c] == original[PrevOrig(subs, k)..CutOrig(subs, k, c)]
    ensures k < |subs| ==> CutOrig(subs, k, c) + (subs[k].newStart - c) == subs[k].origStart
    ensures k == |subs| ==> CutOrig(subs, k, c) + (|text| - c) == |original|
    decreases |subs|
  {
    if subs == [] {
    } else if k == |subs| {
      GapAtEnd(original, text, subs, c);
    } else {
      var s, front := subs[|subs| - 1], subs[..|subs| - 1];
      var o', t' := original[..s.origStart], text[..s.newStart];
      GapBeforeCut(o', t', front, k, c);
      assert PrevNew(subs, k) == PrevNew(front, k) && PrevOrig(subs, k) == PrevOrig(front, k);
      SliceOfPrefix(text, s.newStart, PrevNew(subs, k), c);
      SliceOfPrefix(original, s.origStart, PrevOrig(subs, k), CutOrig(subs, k, c));
      if k < |front| {
        assert subs[k] == front[k];
      }
    }
  }

  lemma SliceOfPrefix(s: string, m: nat, a: nat, b: nat)
    requires a <= b <= m <= |s|
    ensures s[..m][a..b] == s[a..b]
  {
  }

  lemma {:induction false} GapAtEnd(original: string, text: string, subs: seq<Sub>, c: nat)
    requires Faithful(original, text, subs) && subs != []
    requires subs[|subs| - 1].newEnd <= c <= |text|
    ensures CutOrig(subs, |subs|, c) + (|text| - c) == |original|
    ensures text[PrevNew(subs, |subs|)..c] == original[PrevOrig(subs, |subs|)..CutOrig(subs, |subs|, c)]
  {
    var s := subs[|subs| - 1];
    assert |text[s.newEnd..]| == |original[s.origEnd..]|;
    assert text[s.newEnd..c] == text[s.newEnd..][..c - s.newEnd];
    assert original[s.origEnd..s.origEnd + (c - s.newEnd)] == original[s.origEnd..][..c - s.newEnd];
  }

  /** What a faithful map says at every cut, without the recursion. */
  ghost predicate Aligned(original: string, text: string, subs: seq<Sub>) {
    && Ordered(subs)
    && (forall k :: 0 <= k < |subs| ==> subs[k].newEnd <= |text| && subs[k].origStart < subs[k].origEnd <= |original|)
    && (forall i, j :: 0 <= i < j < |subs| ==> subs[i].origEnd <= subs[j].origStart)
    && (forall k: nat, c: nat :: Cut(subs, k, c) && c <= |text| ==> AlignedAt(original, text, subs, k, c))
  }

  ghost predicate AlignedAt(original: string, text: string, subs: seq<Sub>, k: nat, c: nat) {
    && k <= |subs| && c <= |text|
    && PrevNew(subs, k) <= c && CutOrig(subs, k, c) <= |original|
    && text[PrevNew(subs, k)..c] == original[PrevOrig(subs, k)..CutOrig(subs, k, c)]
    && (k < |subs| ==> CutOrig(subs, k, c) + (subs[k].newStart - c) == subs[k].origStart)
    && (k == |subs| ==> CutOrig(subs, k, c) + (|text| - c) == |original|)
  }

  lemma {:induction false} FaithfulAligned(original: string, text: string, subs: seq<Sub>)
    requires Faithful(original, text, subs)
    ensures Aligned(original, text, subs)
  {
    FaithfulOrdered(original, text, subs);
    forall k: nat, c: nat | Cut(subs, k, c) && c <= |text|
      ensures AlignedAt(original, text, subs, k, c)
    {
      GapBeforeCut(original, text, subs, k, c);
    }
  }

  /** At a cut both lookups give the cut's original position. */
  lemma LookupsAtCut(o: Offsets, original: string, text: string, k: nat, c: nat)
    requires Aligned(original, text, o.subs) && Cut(o.subs, k, c) && c <= |text|
    ensures PrevNew(o.subs, k) <= c
    ensures o.Start(c) == CutOrig(o.subs, k, c) && o.End(c) == CutOrig(o.subs, k, c)
  {
    assert AlignedAt(original, text, o.subs, k, c);
    StartAtCut(o, k, c);
    EndAtCut(o, k, c);
  }

  lemma StartAtCut(o: Offsets, k: nat, c: nat)
    requires Ordered(o.subs) && Cut(o.subs, k, c)
    requires k < |o.subs| ==> CutOrig(o.subs, k, c) + (o.subs[k].newStart - c) == o.subs[k].origStart
    ensures o.Start(c) == CutOrig(o.subs, k, c)
  {
    BisectIs(o.subs, c, if k < |o.subs| && o.subs[k].newStart == c then k + 1 else k);
  }

  lemma EndAtCut(o: Offsets, k: nat, c: nat)
    requires Ordered(o.subs) && Cut(o.subs, k, c)
    ensures o.End(c) == CutOrig(o.subs, k, c)
  {
    if c > 0 {
      BisectIs(o.subs, c - 1, k);
    }
  }

  // ── What the lookups mean ─────────────────────────────────────────────

  /** Position pos is inside recorded interval k. */
  predicate Inside(subs: seq<Sub>, k: nat, pos: nat) {
    k < |subs| && subs[k].newStart <= pos < subs[k].newEnd
  }

  lemma InsideOrCut(subs: seq<Sub>, pos: nat) returns (k: nat)
    requires Ordered(subs)
    ensures k <= |subs|
    ensures (k > 0 && Inside(subs, k - 1, pos)) || (Cut(subs, k, pos) && Cut(subs, k, pos + 1))
  {
    k := BisectRight(subs, pos, 0, |subs|);
  }

  lemma CutAfter(subs: seq<Sub>, k: nat, pos: nat)
    requires Ordered(subs) && k <= |subs|
    requires (k > 0 && Inside(subs, k - 1, pos)) || Cut(subs, k, pos + 1)
    requires !(k > 0 && Inside(subs, k - 1, pos) && Inside(subs, k - 1, pos + 1))
    ensures Cut(subs, k, pos + 1)
  {
  }

  /** Inside a recorded interval both lookups give its recorded slice. */
  lemma LookupRecorded(o: Offsets, k: nat, pos: nat)
    requires Ordered(o.subs) && Inside(o.subs, k, pos)
    ensures o.Start(pos) == o.subs[k].origStart && o.End(pos + 1) == o.subs[k].origEnd
  {
    BisectIs(o.subs, pos, k + 1);
  }

  lemma CharAtCut(original: string, text: string, subs: seq<Sub>, k: nat, pos: nat)
    requires k <= |subs| && PrevNew(subs, k) <= pos < |text| && AlignedAt(original, text, subs, k, pos + 1)
    ensures CutOrig(subs, k, pos) < |original| && original[CutOrig(subs, k, pos)] == text[pos]
    ensures CutOrig(subs, k, pos + 1) == CutOrig(subs, k, pos) + 1
  {
    var a, b := PrevNew(subs, k), PrevOrig(subs, k);
    assert text[a..pos + 1][pos - a] == original[b..CutOrig(subs, k, pos + 1)][pos - a];
  }

  /** Outside every recorded interval, a character is the original's character at its mapped position. */
  lemma LookupUnrecorded(o: Offsets, original: string, text: string, pos: nat)
    requires Aligned(original, text, o.subs) && pos < |text|
    requires forall k :: !Inside(o.subs, k, pos)
    ensures o.Start(pos) < |original| && original[o.Start(pos)] == text[pos] && o.End(pos + 1) == o.Start(pos) + 1
  {
    var k := InsideOrCut(o.subs, pos);
    LookupsAtCut(o, original, text, k, pos);
    LookupsAtCut(o, original, text, k, pos + 1);
    CharAtCut(original, text, o.subs, k, pos);
  }

  lemma LookupBounds(o: Offsets, original: string, text: string, pos: nat)
    requires Aligned(original, text, o.subs) && pos < |text|
    ensures o.Start(pos) < o.End(pos + 1) <= |original|
  {
    if k :| Inside(o.subs, k, pos) {
      LookupRecorded(o, k, pos);
    } else {
      LookupUnrecorded(o, original, text, pos);
    }
  }

  lemma LookupsStep(o: Offsets, original: string, text: string, pos: nat)
    requires Aligned(original, text, o.subs) && pos + 1 < |text|
    ensures o.Start(pos) <= o.Start(pos + 1) && o.End(pos + 1) <= o.End(pos + 2)
  {
    var k := InsideOrCut(o.subs, pos);
    if k > 0 && Inside(o.subs, k - 1, pos) && Inside(o.subs, k - 1, pos + 1) {
      LookupRecorded(o, k - 1, pos);
      LookupRecorded(o, k - 1, pos + 1);
    } else {
      CutAfter(o.subs, k, pos);
      LookupBounds(o, original, text, pos);
      LookupBounds(o, original, text, pos + 1);
      LookupsAtCut(o, original, text, k, pos + 1);
    }
  }

  /** Both lookups are monotone. */
  lemma {:induction false} LookupsMonotone(o: Offsets, original: string, text: string, a: nat, b: nat)
    requires Aligned(original, text, o.subs) && a <= b < |text|
    ensures o.Start(a) <= o.Start(b) && o.End(a + 1) <= o.End(b + 1)
    decreases b - a
  {
    if a < b {
      LookupsStep(o, original, text, a);
      LookupsMonotone(o, original, text, a + 1, b);
    }
  }

  /** A nonempty range of the scanned text maps to a nonempty range of the original. */
  lemma RangeMapsToRange(o: Offsets, original: string, text: string, start: nat, end: nat)
    requires Aligned(original, text, o.subs) && start < end <= |text|
    ensures o.Start(start) < o.End(end) <= |original|
  {
    LookupBounds(o, original, text, start);
    LookupBounds(o, original, text, end - 1);
    LookupsMonotone(o, original, text, start, end - 1);
  }

  // ── Refanging ─────────────────────────────────────────────────────────

  function LowerAscii(s: string): (r: string)
    ensures |r| == |s|
  {
    seq(|s|, i requires 0 <= i < |s| => if 'A' <= s[i] <= 'Z' then s[i] - 'A' + 'a' else s[i])
  }

  predicate OccursAt(s: string, part: string, i: nat) {
    i + |part| <= |s| && s[i..i + |part|] == part
  }

  predicate Contains(s: string, part: string) {
    exists i | 0 <= i <= |s| - |part| :: OccursAt(s, part, i)
  }

  function RefangReplacement(token: string): (r: string)
    ensures r != ""
    ensures r == "." || '.' !in r
  {
    var lowered := LowerAscii(token);
    if lowered == "hxxp" then "http"
    else if lowered == "[://]" then "://"
    else if lowered == "[:]" then ":"
    else if Contains(lowered, "@") || Contains(lowered, "at") then "@"
    else "."
  }

  /** token is the word in any case. */
  predicate IsWord(token: string, word: string) {
    |token| == |word| && forall i :: 0 <= i < |word| ==> token[i] == word[i] || IsUpperOf(token[i], word[i])
  }

  predicate IsUpperOf(upper: char, c: char) {
    'a' <= c <= 'z' && upper as int == c as int - 32
  }

  lemma LoweredWord(token: string, word: string)
    requires forall i :: 0 <= i < |word| ==> !('A' <= word[i] <= 'Z')
    ensures IsWord(token, word) <==> LowerAscii(token) == word
  {
    if |token| == |word| {
      forall i | 0 <= i < |word|
        ensures LowerAscii(token)[i] == word[i] <==>
          token[i] == word[i] || IsUpperOf(token[i], word[i])
      {
      }
    }
  }

  lemma NoAt(word: string)
    requires forall i :: 0 <= i < |word| ==> word[i] != '@' && word[i] != 'a'
    ensures !Contains(word, "@") && !Contains(word, "at")
  {
    forall i | 0 <= i < |word|
      ensures !OccursAt(word, "@", i) && !OccursAt(word, "at", i)
    {
      assert i + 1 <= |word| ==> word[i..i + 1][0] == word[i];
      assert i + 2 <= |word| ==> word[i..i + 2][0] == word[i];
    }
  }

  /** Which defanged token stands for which text, in any case. */
  lemma RefangTokens(token: string)
    ensures IsWord(token, "hxxp") <==> RefangReplacement(token) == "http"
    ensures IsWord(token, "[://]") <==> RefangReplacement(token) == "://"
    ensures IsWord(token, "[:]") <==> RefangReplacement(token) == ":"
    ensures token == "[@]" || IsWord(token, "[at]") || IsWord(token, "(at)") ==> RefangReplacement(token) == "@"
    ensures token == "[.]" || token == "(.)" || token == "{.}" ==> RefangReplacement(token) == "."
    ensures IsWord(token, "[dot]") || IsWord(token, "(dot)") || IsWord(token, "{dot}") || IsWord(token, " dot ") ==>
      RefangReplacement(token) == "."
  {
    LoweredWord(token, "hxxp");
    LoweredWord(token, "[://]");
    LoweredWord(token, "[:]");
    AtTokens(token);
    DotTokens(token);
  }

  lemma AtTokens(token: string)
    ensures token == "[@]" || IsWord(token, "[at]") || IsWord(token, "(at)") ==> RefangReplacement(token) == "@"
  {
    LoweredWord(token, "[at]");
    LoweredWord(token, "(at)");
    assert LowerAscii("[@]") == "[@]" && OccursAt("[@]", "@", 1);
    assert OccursAt("[at]", "at", 1) && OccursAt("(at)", "at", 1);
  }

  lemma DotTokens(token: string)
    ensures token == "[.]" || token == "(.)" || token == "{.}" ==> RefangReplacement(token) == "."
    ensures IsWord(token, "[dot]") || IsWord(token, "(dot)") || IsWord(token, "{dot}") || IsWord(token, " dot ") ==>
      RefangReplacement(token) == "."
  {
    DotToken(token, "[dot]");
    DotToken(token, "(dot)");
    DotToken(token, "{dot}");
    DotToken(token, " dot ");
    DotToken(token, "[.]");
    DotToken(token, "(.)");
    DotToken(token, "{.}");
    assert LowerAscii("[.]") == "[.]" && LowerAscii("(.)") == "(.)" && LowerAscii("{.}") == "{.}";
  }

  lemma DotToken(token: string, word: string)
    requires word in {"[dot]", "(dot)", "{dot}", " dot ", "[.]", "(.)", "{.}"}
    ensures LowerAscii(token) == word ==> RefangReplacement(token) == "."
    ensures IsWord(token, word) <==> LowerAscii(token) == word
  {
    NoAt(word);
    LoweredWord(token, word);
  }

  datatype Span = Span(start: nat, end: nat)

  /** What a regex search returns: nonempty matches inside the text, left to right, not overlapping. */
  ghost predicate Matches(spans: seq<Span>, length: nat) {
    && (forall i :: 0 <= i < |spans| ==> spans[i].start < spans[i].end <= length)
    && (forall i, j :: 0 <= i < j < |spans| ==> spans[i].end <= spans[j].start)
  }

  ghost predicate InText(text: string, subs: seq<Sub>) {
    forall k :: 0 <= k < |subs| ==> subs[k].newStart < subs[k].newEnd <= |text|
  }

  function NewSlice(text: string, s: Sub): string
    requires s.newStart < s.newEnd <= |text|
  {
    text[s.newStart..s.newEnd]
  }

  /** Every replacement in the text is one dot or has none, so a run of dots never cuts one. */
  ghost predicate DotAtomic(text: string, subs: seq<Sub>)
    requires InText(text, subs)
  {
    forall k :: 0 <= k < |subs| ==> NewSlice(text, subs[k]) == "." || '.' !in NewSlice(text, subs[k])
  }

  /** Match k of the original was replaced by replacement k. */
  ghost predicate Recorded(matches: seq<Span>, replacements: seq<string>, refanged: string, subs: seq<Sub>) {
    && |subs| == |matches| == |replacements|
    && InText(refanged, subs)
    && (forall k :: 0 <= k < |subs| ==> NewSlice(refanged, subs[k]) == replacements[k])
    && (forall k :: 0 <= k < |subs| ==> subs[k].origStart == matches[k].start && subs[k].origEnd == matches[k].end)
  }

  lemma MatchesPrefix(spans: seq<Span>, i: nat, length: nat)
    requires Matches(spans, length) && i <= |spans|
    ensures Matches(spans[..i], length)
  {
  }

  lemma {:induction false} ReplacementAt(text: string, matches: seq<Span>, k: nat)
    requires Matches(matches, |text|) && k < |matches|
    ensures Replacements(text, matches)[k] == RefangReplacement(text[matches[k].start..matches[k].end])
    decreases |matches|
  {
    MatchesPrefix(matches, |matches| - 1, |text|);
    if k < |matches| - 1 {
      ReplacementAt(text, matches[..|matches| - 1], k);
    }
  }

  /** The refanged form of every match. */
  function Replacements(text: string, matches: seq<Span>): (replacements: seq<string>)
    requires Matches(matches, |text|)
    ensures |replacements| == |matches|
    ensures forall k :: 0 <= k < |replacements| ==> replacements[k] == "." || (replacements[k] != "" && '.' !in replacements[k])
  {
    if matches == [] then []
    else
      var m := matches[|matches| - 1];
      MatchesPrefix(matches, |matches| - 1, |text|);
      Replacements(text, matches[..|matches| - 1]) + [RefangReplacement(text[m.start..m.end])]
  }

  /** A replacement that is one dot starts at p. */
  ghost predicate DotAt(refanged: string, subs: seq<Sub>, p: nat)
    requires InText(refanged, subs)
  {
    exists k :: 0 <= k < |subs| && subs[k].newStart == p && NewSlice(refanged, subs[k]) == "."
  }

  /** The positions of the dots that replaced a defanged dot. */
  ghost predicate DotsOf(refanged: string, subs: seq<Sub>, dots: set<nat>)
    requires InText(refanged, subs)
  {
    forall p :: p in dots <==> DotAt(refanged, subs, p)
  }

  lemma SlicesExtend(text: string, subs: seq<Sub>, more: string)
    requires InText(text, subs)
    ensures InText(text + more, subs)
    ensures forall k :: 0 <= k < |subs| ==> NewSlice(text + more, subs[k]) == NewSlice(text, subs[k])
  {
  }

  lemma RecordedStep(
      matches: seq<Span>, replacements: seq<string>, parts: string, subs: seq<Sub>, gap: string, m: Span, replacement: string)
    requires Recorded(matches, replacements, parts, subs) && replacement != ""
    ensures var at := |parts| + |gap|;
      Recorded(matches + [m], replacements + [replacement], parts + gap + replacement,
        subs + [Sub(at, at + |replacement|, m.start, m.end)])
  {
    var at := |parts| + |gap|;
    SlicesExtend(parts, subs, gap + replacement);
    var refanged := parts + gap + replacement;
    assert refanged == parts + (gap + replacement);
    assert refanged[at..] == replacement;
  }

  lemma DotAtExtend(parts: string, subs: seq<Sub>, more: string, s: Sub, p: nat)
    requires InText(parts, subs) && |parts| <= s.newStart < s.newEnd <= |parts + more|
    ensures InText(parts + more, subs + [s])
    ensures DotAt(parts + more, subs + [s], p) <==> DotAt(parts, subs, p) || (p == s.newStart && NewSlice(parts + more, s) == ".")
  {
    SlicesExtend(parts, subs, more);
    var all := subs + [s];
    assert all[|subs|] == s;
    if DotAt(parts, subs, p) {
      var k :| 0 <= k < |subs| && subs[k].newStart == p && NewSlice(parts, subs[k]) == ".";
      assert all[k] == subs[k];
    }
  }

  lemma DotsStep(parts: string, subs: seq<Sub>, dots: set<nat>, more: string, s: Sub)
    requires InText(parts, subs) && DotsOf(parts, subs, dots)
    requires |parts| <= s.newStart < s.newEnd <= |parts + more|
    ensures InText(parts + more, subs + [s])
    ensures DotsOf(parts + more, subs + [s], if NewSlice(parts + more, s) == "." then dots + {s.newStart} else dots)
  {
    SlicesExtend(parts, subs, more);
    forall p: nat
      ensures DotAt(parts + more, subs + [s], p) <==> DotAt(parts, subs, p) || (p == s.newStart && NewSlice(parts + more, s) == ".")
    {
      DotAtExtend(parts, subs, more, s, p);
    }
  }

  lemma RecordedKeep(matches: seq<Span>, replacements: seq<string>, parts: string, subs: seq<Sub>, more: string)
    requires Recorded(matches, replacements, parts, subs)
    ensures Recorded(matches, replacements, parts + more, subs)
  {
    SlicesExtend(parts, subs, more);
  }

  lemma DotsKeep(parts: string, subs: seq<Sub>, dots: set<nat>, more: string)
    requires InText(parts, subs) && DotsOf(parts, subs, dots)
    ensures InText(parts + more, subs) && DotsOf(parts + more, subs, dots)
  {
    SlicesExtend(parts, subs, more);
    forall p: nat
      ensures DotAt(parts + more, subs, p) <==> DotAt(parts, subs, p)
    {
    }
  }

  lemma RefangDots(parts: string, subs: seq<Sub>, dots: set<nat>, gap: string, replacement: string, s: Sub)
    requires InText(parts, subs) && DotsOf(parts, subs, dots) && replacement != ""
    requires s.newStart == |parts| + |gap| && s.newEnd == s.newStart + |replacement|
    ensures InText(parts + gap + replacement, subs + [s])
    ensures DotsOf(parts + gap + replacement, subs + [s], if replacement == "." then dots + {s.newStart} else dots)
  {
    assert parts + (gap + replacement) == parts + gap + replacement;
    assert NewSlice(parts + gap + replacement, s) == replacement;
    DotsStep(parts, subs, dots, gap + replacement, s);
  }

  lemma {:induction false} FaithfulStep(
      text: string, parts: string, subs: seq<Sub>, last: nat, start: nat, end: nat, replacement: string)
    requires last <= start < end <= |text| && replacement != ""
    requires Faithful(text[..last], parts, subs)
    ensures var gap := text[last..start];
      Faithful(text[..end], parts + gap + replacement,
        subs + [Sub(|parts| + |gap|, |parts| + |gap| + |replacement|, start, end)])
  {
    var gap := text[last..start];
    FaithfulExtend(text[..last], parts, subs, gap);
    assert text[..last] + gap == text[..start];
    FaithfulReplace(text[..start], parts + gap, subs, text[start..end], replacement);
    assert text[..start] + text[start..end] == text[..end];
  }

  /** What the substitution loop holds: the output so far, its map, its defang dots, and the end of the last match. */
  datatype Progress = Progress(parts: string, subs: seq<Sub>, dots: set<nat>, last: nat)

  function Substitute(text: string, p: Progress, m: Span, replacement: string): Progress
    requires p.last <= m.start < m.end <= |text|
  {
    var at := |p.parts| + (m.start - p.last);
    Progress(p.parts + text[p.last..m.start] + replacement, p.subs + [Sub(at, at + |replacement|, m.start, m.end)],
      if replacement == "." then p.dots + {at} else p.dots, m.end)
  }

  function SubstituteAll(text: string, matches: seq<Span>, replacements: seq<string>, i: nat): (p: Progress)
    requires Matches(matches, |text|) && |matches| == |replacements| && i <= |matches|
    ensures p.last <= |text| && forall k :: i <= k < |matches| ==> p.last <= matches[k].start
    ensures |p.subs| == i
    decreases i
  {
    if i == 0 then Progress("", [], {}, 0)
    else Substitute(text, SubstituteAll(text, matches, replacements, i - 1), matches[i - 1], replacements[i - 1])
  }

  function Finished(text: string, p: Progress): string
    requires p.last <= |text|
  {
    p.parts + text[p.last..]
  }

  ghost predicate At(p: Progress, text: string, matches: seq<Span>, replacements: seq<string>, i: nat)
    requires Matches(matches, |text|) && |matches| == |replacements| && i <= |matches|
  {
    p == SubstituteAll(text, matches, replacements, i)
  }

  lemma AtStep(p: Progress, text: string, matches: seq<Span>, replacements: seq<string>, i: nat)
    requires Matches(matches, |text|) && |matches| == |replacements| && i < |matches|
    requires At(p, text, matches, replacements, i)
    ensures p.last <= matches[i].start
    ensures At(Substitute(text, p, matches[i], replacements[i]), text, matches, replacements, i + 1)
  {
  }

  /** The substitution loop, with its own cursors. */
  method SubstituteLoop(text: string, matches: seq<Span>) returns (p: Progress)
    requires Matches(matches, |text|)
    ensures At(p, text, matches, Replacements(text, matches), |matches|)
  {
    var parts, subs, last := "", [], 0;
    var dots: set<nat> := {};
    ghost var replacements := Replacements(text, matches);
    for i := 0 to |matches|
      invariant last <= |text| && At(Progress(parts, subs, dots, last), text, matches, replacements, i)
    {
      var start, end := matches[i].start, matches[i].end;
      AtStep(Progress(parts, subs, dots, last), text, matches, replacements, i);
      ReplacementAt(text, matches, i);
      var replacement := RefangReplacement(text[start..end]);
      parts := parts + text[last..start];
      if replacement == "." {
        dots := dots + {|parts|};
      }
      subs := subs + [Sub(|parts|, |parts| + |replacement|, start, end)];
      parts := parts + replacement;
      last := end;
    }
    p := Progress(parts, subs, dots, last);
  }

  method Refang(text: string, matches: seq<Span>) returns (refanged: string, offsets: Offsets)
    requires Matches(matches, |text|)
    ensures var p := SubstituteAll(text, matches, Replacements(text, matches), |matches|);
      refanged == Finished(text, p) && offsets == Offsets(p.subs, p.subs, p.dots)
  {
    var p := SubstituteLoop(text, matches);
    if p.subs == [] {
      return text, Offsets([], [], {});
    }
    return p.parts + text[p.last..], Offsets(p.subs, p.subs, p.dots);
  }

  lemma {:induction false} SubstituteAllFaithful(text: string, matches: seq<Span>, replacements: seq<string>, i: nat)
    requires Matches(matches, |text|) && |matches| == |replacements| && i <= |matches|
    requires forall k :: 0 <= k < |replacements| ==> replacements[k] != ""
    ensures var p := SubstituteAll(text, matches, replacements, i); Faithful(text[..p.last], p.parts, p.subs)
  {
    if i > 0 {
      SubstituteAllFaithful(text, matches, replacements, i - 1);
      var p, m := SubstituteAll(text, matches, replacements, i - 1), matches[i - 1];
      FaithfulStep(text, p.parts, p.subs, p.last, m.start, m.end, replacements[i - 1]);
    }
  }

  ghost predicate RecordedSoFar(matches: seq<Span>, replacements: seq<string>, p: Progress) {
    Recorded(matches, replacements, p.parts, p.subs) && DotsOf(p.parts, p.subs, p.dots)
  }

  lemma RecordedSubstitute(text: string, matches: seq<Span>, replacements: seq<string>, p: Progress, m: Span, replacement: string)
    requires p.last <= m.start < m.end <= |text| && replacement != ""
    requires RecordedSoFar(matches, replacements, p)
    ensures RecordedSoFar(matches + [m], replacements + [replacement], Substitute(text, p, m, replacement))
  {
    var gap, q := text[p.last..m.start], Substitute(text, p, m, replacement);
    var at := |p.parts| + |gap|;
    var s := Sub(at, at + |replacement|, m.start, m.end);
    assert q.parts == p.parts + gap + replacement && q.subs == p.subs + [s];
    assert Recorded(matches + [m], replacements + [replacement], q.parts, q.subs) by {
      RecordedStep(matches, replacements, p.parts, p.subs, gap, m, replacement);
    }
    RefangDots(p.parts, p.subs, p.dots, gap, replacement, s);
  }

  lemma {:induction false} SubstituteAllRecorded(text: string, matches: seq<Span>, replacements: seq<string>, i: nat)
    requires Matches(matches, |text|) && |matches| == |replacements| && i <= |matches|
    requires forall k :: 0 <= k < |replacements| ==> replacements[k] != ""
    ensures RecordedSoFar(matches[..i], replacements[..i], SubstituteAll(text, matches, replacements, i))
  {
    if i > 0 {
      SubstituteAllRecorded(text, matches, replacements, i - 1);
      var p := SubstituteAll(text, matches, replacements, i - 1);
      RecordedSubstitute(text, matches[..i - 1], replacements[..i - 1], p, matches[i - 1], replacements[i - 1]);
      assert matches[..i] == matches[..i - 1] + [matches[i - 1]];
      assert replacements[..i] == replacements[..i - 1] + [replacements[i - 1]];
    }
  }

  /** Substituting every match yields a map that is faithful to the original and records exactly the matches. */
  lemma {:induction false} SubstitutedFaithful(text: string, matches: seq<Span>, replacements: seq<string>)
    requires Matches(matches, |text|) && |matches| == |replacements|
    requires forall k :: 0 <= k < |replacements| ==> replacements[k] != ""
    ensures var p := SubstituteAll(text, matches, replacements, |matches|);
      Faithful(text, Finished(text, p), p.subs)
  {
    SubstituteAllFaithful(text, matches, replacements, |matches|);
    var p := SubstituteAll(text, matches, replacements, |matches|);
    FaithfulExtend(text[..p.last], p.parts, p.subs, text[p.last..]);
    assert text[..p.last] + text[p.last..] == text;
  }

  lemma FinishedRecords(text: string, matches: seq<Span>, replacements: seq<string>, p: Progress)
    requires p.last <= |text| && RecordedSoFar(matches, replacements, p)
    ensures Recorded(matches, replacements, Finished(text, p), p.subs) && DotsOf(Finished(text, p), p.subs, p.dots)
  {
    RecordedKeep(matches, replacements, p.parts, p.subs, text[p.last..]);
    DotsKeep(p.parts, p.subs, p.dots, text[p.last..]);
  }

  lemma SubstitutedRecords(text: string, matches: seq<Span>, replacements: seq<string>) returns (p: Progress)
    requires Matches(matches, |text|) && |matches| == |replacements|
    requires forall k :: 0 <= k < |replacements| ==> replacements[k] != ""
    ensures p == SubstituteAll(text, matches, replacements, |matches|)
    ensures Recorded(matches, replacements, Finished(text, p), p.subs) && DotsOf(Finished(text, p), p.subs, p.dots)
  {
    p := SubstituteAll(text, matches, replacements, |matches|);
    SubstituteAllRecorded(text, matches, replacements, |matches|);
    assert matches[..|matches|] == matches && replacements[..|matches|] == replacements;
    FinishedRecords(text, matches, replacements, p);
  }

  lemma RecordedDotAtomic(matches: seq<Span>, replacements: seq<string>, refanged: string, subs: seq<Sub>)
    requires Recorded(matches, replacements, refanged, subs)
    requires forall k :: 0 <= k < |replacements| ==> replacements[k] == "." || '.' !in replacements[k]
    ensures DotAtomic(refanged, subs)
  {
  }

  /** What one call of Refang gives its caller. */
  lemma RefangMeaning(text: string, matches: seq<Span>, refanged: string, offsets: Offsets)
    requires Matches(matches, |text|)
    requires var p := SubstituteAll(text, matches, Replacements(text, matches), |matches|);
      refanged == Finished(text, p) && offsets == Offsets(p.subs, p.subs, p.dots)
    ensures Faithful(text, refanged, offsets.subs)
    ensures Recorded(matches, Replacements(text, matches), refanged, offsets.subs)
    ensures DotsOf(refanged, offsets.subs, offsets.defangDots)
    ensures DotAtomic(refanged, offsets.subs)
  {
    var replacements := Replacements(text, matches);
    SubstitutedFaithful(text, matches, replacements);
    var _ := SubstitutedRecords(text, matches, replacements);
    RecordedDotAtomic(matches, replacements, refanged, offsets.subs);
  }
}
