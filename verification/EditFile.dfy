/** The edit tool's matching core: exact first, then with runs of white space collapsed, the match
    being mapped back to a span of the original text by a lockstep walk. */
module EditFile {
  import opened Sequences
  import opened JsText

  // ---- Normalising ------------------------------------------------------------------------------

  /** `replace(/\s+/g, " ")`. */
  function Collapse(s: Text): Text
    decreases |s|
  {
    if s == [] then []
    else if IsSpace(s[0]) then [SPACE] + Collapse(s[SkipFrom(s, 1)..])
    else [s[0]] + Collapse(s[1..])
  }

  function NormalizeWhitespace(s: Text): Text { Trim(Collapse(s)) }

  // ---- Searching --------------------------------------------------------------------------------

  predicate OccursAt(s: Text, pattern: Text, i: int) {
    0 <= i && i + |pattern| <= |s| && s[i..i + |pattern|] == pattern
  }

  /** `indexOf`: the first occurrence, or -1. */
  function IndexOf(s: Text, pattern: Text): (r: int)
    ensures r == -1 || OccursAt(s, pattern, r)
    ensures forall i :: OccursAt(s, pattern, i) ==> 0 <= r <= i
  {
    IndexFrom(s, pattern, 0)
  }

  function IndexFrom(s: Text, pattern: Text, from: nat): (r: int)
    ensures r == -1 || (OccursAt(s, pattern, r) && from <= r)
    ensures forall i :: from <= i && OccursAt(s, pattern, i) ==> 0 <= r <= i
    decreases |s| - from
  {
    if from + |pattern| > |s| then -1
    else if s[from..from + |pattern|] == pattern then from
    else IndexFrom(s, pattern, from + 1)
  }

  // ---- The walk ---------------------------------------------------------------------------------

  /** Where the original stands after `n` characters of the normalised text, from `i`. */
  function Advance(s: Text, i: nat, n: nat): (j: nat)
    requires i <= |s|
    ensures i <= j <= |s|
    decreases n
  {
    if n == 0 || i == |s| then i
    else if IsSpace(s[i]) then Advance(s, SkipFrom(s, i), n - 1)
    else Advance(s, i + 1, n - 1)
  }

  method FindOriginalSpan(original: Text, normStart: nat, normLen: nat) returns (start: nat, end: nat)
    ensures start == Advance(original, SkipFrom(original, 0), normStart)
    ensures end == Advance(original, start, normLen)
  {
    var origIdx: nat, normIdx: nat := 0, 0;
    while origIdx < |original| && IsSpace(original[origIdx])
      invariant origIdx <= |original| && SkipFrom(original, origIdx) == SkipFrom(original, 0)
    {
      origIdx := origIdx + 1;
    }
    while normIdx < normStart && origIdx < |original|
      invariant normIdx <= normStart && origIdx <= |original|
      invariant Advance(original, origIdx, normStart - normIdx)
        == Advance(original, SkipFrom(original, 0), normStart)
    {
      if IsSpace(original[origIdx]) {
        origIdx := SkipRun(original, origIdx);
        normIdx := normIdx + 1;
      } else {
        origIdx := origIdx + 1;
        normIdx := normIdx + 1;
      }
    }
    start := origIdx;
    var walked: nat := 0;
    while walked < normLen && origIdx < |original|
      invariant walked <= normLen && origIdx <= |original|
      invariant Advance(original, origIdx, normLen - walked) == Advance(original, start, normLen)
    {
      if IsSpace(original[origIdx]) {
        origIdx := SkipRun(original, origIdx);
        walked := walked + 1;
      } else {
        origIdx := origIdx + 1;
        walked := walked + 1;
      }
    }
    end := origIdx;
  }

  /** The inner loop of the walk: past one run of white space. */
  method SkipRun(original: Text, from: nat) returns (i: nat)
    requires from <= |original|
    ensures i == SkipFrom(original, from)
  {
    i := from;
    while i < |original| && IsSpace(original[i])
      invariant i <= |original| && SkipFrom(original, i) == SkipFrom(original, from)
    {
      i := i + 1;
    }
  }

  // ---- How the walk relates the two texts -------------------------------------------------------

  /** A run of white space in front counts as one space. */
  lemma CollapseRun(s: Text, i: nat, e: nat)
    requires i < e <= |s| && IsSpace(s[i]) && SkipFrom(s, i) <= e
    ensures Collapse(s[i..e]) == [SPACE] + Collapse(s[SkipFrom(s, i)..e])
  {
    hide IsSpace;
    var t, j := s[i..e], SkipFrom(s, i);
    SkipIsFirst(t, 1, j - i);
    assert t[j - i..] == s[j..e];
  }

  lemma CollapseOne(s: Text, i: nat, e: nat)
    requires i < e <= |s| && !IsSpace(s[i])
    ensures Collapse(s[i..e]) == [s[i]] + Collapse(s[i + 1..e])
  {
    hide IsSpace;
    assert s[i..e][1..] == s[i + 1..e];
  }

  /** One step of the walk passes one character of the collapsed text. */
  function Hop(s: Text, i: nat): (j: nat)
    requires i < |s|
    ensures i < j <= |s|
  {
    if IsSpace(s[i]) then SkipFrom(s, i) else i + 1
  }

  function Collapsed(s: Text, i: nat): CodeUnit
    requires i < |s|
  {
    if IsSpace(s[i]) then SPACE else s[i]
  }

  lemma CollapseHop(s: Text, i: nat, e: nat)
    requires i < |s| && Hop(s, i) <= e <= |s|
    ensures Collapse(s[i..e]) == [Collapsed(s, i)] + Collapse(s[Hop(s, i)..e])
  {
    hide IsSpace;
    if IsSpace(s[i]) { CollapseRun(s, i, e); } else { CollapseOne(s, i, e); }
  }

  lemma PrependSplit(x: CodeUnit, s: Text, n: nat)
    requires n <= |s|
    ensures ([x] + s)[..n + 1] == [x] + s[..n] && ([x] + s)[n + 1..] == s[n..]
  {
  }

  /** Walking `n` characters passes exactly the first `n` characters of the collapsed text. */
  lemma {:induction false} AdvanceSplitsCollapse(s: Text, i: nat, n: nat)
    requires i <= |s| && n <= |Collapse(s[i..|s|])|
    ensures Collapse(s[i..Advance(s, i, n)]) == Collapse(s[i..|s|])[..n]
    ensures Collapse(s[Advance(s, i, n)..|s|]) == Collapse(s[i..|s|])[n..]
    decreases n
  {
    hide IsSpace;
    if n == 0 {
      assert s[i..i] == [];
    } else {
      assert |s[i..|s|]| == |s| - i;
      CollapseHop(s, i, |s|);
      var j := Hop(s, i);
      AdvanceSplitsCollapse(s, j, n - 1);
      CollapseHop(s, i, Advance(s, i, n));
      PrependSplit(Collapsed(s, i), Collapse(s[j..|s|]), n - 1);
    }
  }

  /** Collapsing distributes over a cut in front of a character that is not white space. */
  lemma {:induction false} CollapseCut(s: Text, i: nat, m: nat, e: nat)
    requires i <= m <= e <= |s| && (m == e || !IsSpace(s[m]))
    ensures Collapse(s[i..e]) == Collapse(s[i..m]) + Collapse(s[m..e])
    decreases m - i
  {
    hide IsSpace;
    if i == m {
      assert s[i..m] == [];
    } else if m == e {
      assert s[m..e] == [] && Collapse(s[i..m]) + [] == Collapse(s[i..m]);
    } else {
      HopStopsAt(s, i, m);
      CollapseHop(s, i, e);
      CollapseHop(s, i, m);
      CollapseCut(s, Hop(s, i), m, e);
      AppendAssociative([Collapsed(s, i)], Collapse(s[Hop(s, i)..m]), Collapse(s[m..e]));
    }
  }

  lemma HopStopsAt(s: Text, i: nat, m: nat)
    requires i < m < |s| && !IsSpace(s[m])
    ensures Hop(s, i) <= m
  {
    hide IsSpace;
  }

  /** The collapsed text holds a space for each run and is empty only for the empty text. */
  lemma {:induction false} CollapseEnds(s: Text)
    ensures Collapse(s) == [] <==> s == []
    ensures s != [] ==> (IsSpace(Collapse(s)[0]) <==> IsSpace(s[0]))
    ensures s != [] ==> (IsSpace(Collapse(s)[|Collapse(s)| - 1]) <==> IsSpace(s[|s| - 1]))
    decreases |s|
  {
    hide IsSpace;
    SpaceIsSpace();
    if s != [] {
      var rest := if IsSpace(s[0]) then s[SkipFrom(s, 1)..] else s[1..];
      CollapseEnds(rest);
      if rest != [] { assert rest[|rest| - 1] == s[|s| - 1]; }
    }
  }

  /** What is left of the collapsed text when both ends are trimmed. */
  lemma NormalizedIsCollapsedBody(s: Text)
    ensures NormalizeWhitespace(s) == TrimEnd(Collapse(s[SkipFrom(s, 0)..]))
    ensures NormalizeWhitespace(s) <= Collapse(s[SkipFrom(s, 0)..])
  {
    hide IsSpace;
    SpaceIsSpace();
    var lead := SkipFrom(s, 0);
    var body := s[lead..];
    CollapseEnds(body);
    var c := Collapse(s);
    if lead == 0 {
      assert s[..0] == [] && c == Collapse(body);
      SkipIsFirst(c, 0, 0);
      assert c[0..] == c;
    } else {
      assert s == s[0..|s|] && body == s[lead..|s|];
      CollapseRun(s, 0, |s|);
      SkipIsFirst(c, 0, 1);
      assert c[1..] == Collapse(body);
    }
    TrimEndShape(Collapse(body));
  }

  // ---- What the normalised match finds ------------------------------------------------------------

  /** The span `[a, b)` of the text reads like `old` once white space is normalised. */
  ghost predicate ReadsLike(s: Text, a: int, b: int, old_string: Text) {
    0 <= a <= b <= |s| && NormalizeWhitespace(s[a..b]) == NormalizeWhitespace(old_string)
  }

  function SpanStart(s: Text, idx: nat): nat { Advance(s, SkipFrom(s, 0), idx) }

  function SpanEnd(s: Text, idx: nat, len: nat): nat { Advance(s, SpanStart(s, idx), len) }

  lemma NormalizeOfTight(s: Text)
    requires Tight(Collapse(s))
    ensures NormalizeWhitespace(s) == Collapse(s)
  {
    TrimIsTight(Collapse(s));
  }

  lemma OccursInLonger(s: Text, longer: Text, pattern: Text, i: nat)
    requires s <= longer && OccursAt(s, pattern, i)
    ensures OccursAt(longer, pattern, i)
  {
  }

  lemma OccursAfterCut(s: Text, pattern: Text, i: nat)
    requires OccursAt(s, pattern, i)
    ensures |pattern| <= |s[i..]| && s[i..][..|pattern|] == pattern
  {
  }

  /** An occurrence in the collapsed text maps back to a span that collapses to it. */
  lemma SpanCollapses(s: Text, lead: nat, idx: nat, pattern: Text)
    requires lead <= |s| && OccursAt(Collapse(s[lead..|s|]), pattern, idx)
    ensures var start := Advance(s, lead, idx);
      Collapse(s[start..Advance(s, start, |pattern|)]) == pattern
  {
    hide IsSpace;
    AdvanceSplitsCollapse(s, lead, idx);
    OccursAfterCut(Collapse(s[lead..|s|]), pattern, idx);
    AdvanceSplitsCollapse(s, Advance(s, lead, idx), |pattern|);
  }

  /** Every occurrence in the normalised text maps back to a span that reads like it. */
  lemma SpanReadsLike(s: Text, old_string: Text, idx: nat)
    requires OccursAt(NormalizeWhitespace(s), NormalizeWhitespace(old_string), idx)
    ensures var len := |NormalizeWhitespace(old_string)|;
      && ReadsLike(s, SpanStart(s, idx), SpanEnd(s, idx, len), old_string)
      && Collapse(s[SpanStart(s, idx)..SpanEnd(s, idx, len)]) == NormalizeWhitespace(old_string)
  {
    hide IsSpace;
    var pattern, lead := NormalizeWhitespace(old_string), SkipFrom(s, 0);
    NormalizedIsCollapsedBody(s);
    assert s[lead..] == s[lead..|s|];
    OccursInLonger(NormalizeWhitespace(s), Collapse(s[lead..|s|]), pattern, idx);
    SpanCollapses(s, lead, idx, pattern);
    TrimIsTight(Collapse(old_string));
    NormalizeOfTight(s[SpanStart(s, idx)..SpanEnd(s, idx, |pattern|)]);
  }

  /** The last position of the span that holds no white space, plus one. */
  function DropTail(s: Text, a: nat, b: nat): (e: nat)
    requires a <= b <= |s|
    ensures a <= e <= b
    ensures e > a ==> !IsSpace(s[e - 1])
    ensures forall k :: e <= k < b ==> IsSpace(s[k])
  {
    if a < b && IsSpace(s[b - 1]) then DropTail(s, a, b - 1) else b
  }

  lemma BlankNormalizesToNothing(s: Text, a: nat, b: nat)
    requires a <= b <= |s| && forall k :: a <= k < b ==> IsSpace(s[k])
    ensures NormalizeWhitespace(s[a..b]) == []
  {
    hide IsSpace;
    var t := s[a..b];
    NormalizedIsCollapsedBody(t);
    SkipIsFirst(t, 0, |t|);
    assert t[|t|..] == [];
  }

  /** Cutting a span out first, or skipping its leading white space first. */
  lemma SkipWithin(s: Text, a: nat, b: nat)
    requires a <= b <= |s| && SkipFrom(s, a) < b
    ensures SkipFrom(s[a..b], 0) == SkipFrom(s, a) - a
    ensures s[a..b][SkipFrom(s, a) - a..] == s[SkipFrom(s, a)..b]
  {
    hide IsSpace;
    SkipIsFirst(s[a..b], 0, SkipFrom(s, a) - a);
  }

  lemma TailIsVisible(s: Text, a: nat, b: nat)
    requires a < b <= |s| && !IsSpace(s[a])
    ensures a < DropTail(s, a, b)
  {
    hide IsSpace;
  }

  /** A span normalises to what its visible part collapses to. */
  lemma NormalizedVisiblePart(s: Text, a: nat, b: nat)
    requires a <= b <= |s| && SkipFrom(s, a) < b
    ensures SkipFrom(s, a) < DropTail(s, SkipFrom(s, a), b)
    ensures NormalizeWhitespace(s[a..b]) == Collapse(s[SkipFrom(s, a)..DropTail(s, SkipFrom(s, a), b)])
  {
    hide IsSpace, Collapse, TrimEnd, NormalizeWhitespace;
    var from := SkipFrom(s, a);
    NormalizedIsCollapsedBody(s[a..b]);
    SkipWithin(s, a, b);
    TailIsVisible(s, from, b);
    TrimCollapsed(s, from, DropTail(s, from, b), b);
  }

  lemma VisibleSpan(s: Text, a: nat, b: nat)
    requires a <= b <= |s| && NormalizeWhitespace(s[a..b]) != []
    ensures SkipFrom(s, a) < b
  {
    hide IsSpace;
    if SkipFrom(s, a) >= b { BlankNormalizesToNothing(s, a, b); }
  }

  /** The last visible character, collapsed, and what stands behind it. */
  lemma CollapseLastVisible(s: Text, from: nat, e: nat, b: nat)
    requires from < e <= b <= |s| && !IsSpace(s[e - 1])
    ensures Collapse(s[from..b]) == Collapse(s[from..e - 1]) + [s[e - 1]] + Collapse(s[e..b])
  {
    hide IsSpace;
    CollapseCut(s, from, e - 1, b);
    CollapseOne(s, e - 1, b);
    AppendAssociative(Collapse(s[from..e - 1]), [s[e - 1]], Collapse(s[e..b]));
  }

  lemma TrimOneSpace(body: Text)
    requires body != [] && !IsSpace(body[|body| - 1])
    ensures TrimEnd(body) == body && TrimEnd(body + [SPACE]) == body
  {
    SpaceIsSpace();
    assert (body + [SPACE])[..|body|] == body;
  }

  /** Trailing white space collapses to at most one space, which trimming removes. */
  lemma TrimCollapsed(s: Text, from: nat, e: nat, b: nat)
    requires from < e <= b <= |s| && !IsSpace(s[from]) && !IsSpace(s[e - 1])
    requires forall k :: e <= k < b ==> IsSpace(s[k])
    ensures TrimEnd(Collapse(s[from..b])) == Collapse(s[from..e])
  {
    hide IsSpace, TrimEnd;
    CollapseLastVisible(s, from, e, b);
    CollapseLastVisible(s, from, e, e);
    var body := Collapse(s[from..e - 1]) + [s[e - 1]];
    assert s[e..e] == [] && body + [] == body;
    TrimOneSpace(body);
    if e < b { SkipIsFirstWithin(s, e, b); }
  }

  lemma SkipIsFirstWithin(s: Text, e: nat, b: nat)
    requires e < b <= |s| && forall k :: e <= k < b ==> IsSpace(s[k])
    ensures Collapse(s[e..b]) == [SPACE]
  {
    hide IsSpace;
    var t := s[e..b];
    SkipIsFirst(t, 1, |t|);
    assert t[|t|..] == [];
  }

  /** Walking exactly as many characters as a stretch collapses to ends at the end of the stretch. */
  lemma {:induction false} AdvanceReaches(s: Text, i: nat, m: nat)
    requires i <= m < |s| && !IsSpace(s[m])
    ensures Advance(s, i, |Collapse(s[i..m])|) == m
    decreases m - i
  {
    hide IsSpace;
    if i == m {
      assert s[i..m] == [];
    } else {
      HopStopsAt(s, i, m);
      CollapseHop(s, i, m);
      AdvanceReaches(s, Hop(s, i), m);
    }
  }

  lemma {:induction false} AdvanceIsMonotone(s: Text, i: nat, n: nat, m: nat)
    requires i <= |s| && n <= m
    ensures Advance(s, i, n) <= Advance(s, i, m)
    decreases n
  {
    hide IsSpace;
    if n > 0 && i < |s| { AdvanceIsMonotone(s, Hop(s, i), n - 1, m - 1); }
  }

  lemma OccursBehind(prefix: Text, pattern: Text, rest: Text)
    requires pattern <= rest
    ensures OccursAt(prefix + rest, pattern, |prefix|)
  {
  }

  /** A stretch with visible ends occurs, collapsed, in the normalised text. */
  lemma VisibleStretchOccurs(s: Text, from: nat, e: nat)
    requires SkipFrom(s, 0) <= from < e <= |s| && !IsSpace(s[from]) && !IsSpace(s[e - 1])
    ensures OccursAt(NormalizeWhitespace(s), Collapse(s[from..e]), |Collapse(s[SkipFrom(s, 0)..from])|)
  {
    hide IsSpace;
    var lead := SkipFrom(s, 0);
    var last := DropTail(s, lead, |s|);
    assert e <= last;
    assert s[0..|s|] == s;
    NormalizedVisiblePart(s, 0, |s|);
    CollapseCut(s, lead, from, last);
    PatternInFront(s, from, e, last);
    OccursBehind(Collapse(s[lead..from]), Collapse(s[from..e]), Collapse(s[from..last]));
  }

  /** Any span that reads like `old` gives an occurrence in the normalised text, found at or before
      the place where the span's first visible character stands. */
  lemma SpanGivesOccurrence(s: Text, old_string: Text, a: nat, b: nat)
    requires ReadsLike(s, a, b, old_string) && NormalizeWhitespace(old_string) != []
    ensures SkipFrom(s, 0) <= SkipFrom(s, a)
    ensures var idx := |Collapse(s[SkipFrom(s, 0)..SkipFrom(s, a)])|;
      && OccursAt(NormalizeWhitespace(s), NormalizeWhitespace(old_string), idx)
      && SpanStart(s, idx) == SkipFrom(s, a)
  {
    hide IsSpace, Collapse, NormalizeWhitespace, Advance;
    VisibleSpan(s, a, b);
    NormalizedVisiblePart(s, a, b);
    var lead, from := SkipFrom(s, 0), SkipFrom(s, a);
    assert lead <= from;
    AdvanceReaches(s, lead, from);
    VisibleStretchOccurs(s, from, DropTail(s, from, b));
  }

  /** Collapsing more text behind a visible character keeps what was there. */
  lemma {:induction false} PatternInFront(s: Text, from: nat, e: nat, last: nat)
    requires from <= e <= last <= |s| && (e == from || !IsSpace(s[e - 1]))
    ensures Collapse(s[from..e]) <= Collapse(s[from..last])
    decreases e - from
  {
    hide IsSpace;
    if from == e {
      assert s[from..e] == [];
    } else {
      assert Hop(s, from) <= e;
      CollapseHop(s, from, e);
      CollapseHop(s, from, last);
      PatternInFront(s, Hop(s, from), e, last);
    }
  }

  /** The normalised match succeeds exactly when some span of the text reads like `old`. */
  lemma NormalizedMatchIffSpan(s: Text, old_string: Text)
    ensures IndexOf(NormalizeWhitespace(s), NormalizeWhitespace(old_string)) != -1 <==>
      exists a, b :: ReadsLike(s, a, b, old_string)
  {
    hide IsSpace;
    var pattern := NormalizeWhitespace(old_string);
    var idx := IndexOf(NormalizeWhitespace(s), pattern);
    if idx != -1 {
      SpanReadsLike(s, old_string, idx);
      assert ReadsLike(s, SpanStart(s, idx), SpanEnd(s, idx, |pattern|), old_string);
    }
    if a, b :| ReadsLike(s, a, b, old_string) {
      if pattern == [] {
        assert OccursAt(NormalizeWhitespace(s), pattern, 0);
      } else {
        SpanGivesOccurrence(s, old_string, a, b);
      }
    }
  }

  /** The span taken is the first: no other span that reads like `old` has its first visible
      character earlier. */
  lemma SpanTakenIsFirst(s: Text, old_string: Text, a: nat, b: nat)
    requires ReadsLike(s, a, b, old_string) && NormalizeWhitespace(old_string) != []
    ensures var idx := IndexOf(NormalizeWhitespace(s), NormalizeWhitespace(old_string));
      idx >= 0 && SpanStart(s, idx) <= SkipFrom(s, a)
  {
    hide IsSpace;
    SpanGivesOccurrence(s, old_string, a, b);
    var idx := IndexOf(NormalizeWhitespace(s), NormalizeWhitespace(old_string));
    AdvanceIsMonotone(s, SkipFrom(s, 0), idx, |Collapse(s[SkipFrom(s, 0)..SkipFrom(s, a)])|);
  }

  // ---- The edit -----------------------------------------------------------------------------------

  datatype EditOutcome = Edited(result: Text) | NoMatch

  /** The span of the text that the edit replaces is the first that reads like `old`; when `old` is all
      white space it is the empty one in front of the first visible character. */
  ghost predicate FirstSpan(s: Text, old_string: Text, start: nat, end: nat) {
    && ReadsLike(s, start, end, old_string)
    && Collapse(s[start..end]) == NormalizeWhitespace(old_string)
    && (NormalizeWhitespace(old_string) == [] ==> start == end == SkipFrom(s, 0))
    && forall a, b :: ReadsLike(s, a, b, old_string) && NormalizeWhitespace(old_string) != [] ==>
         start <= SkipFrom(s, a)
  }

  /** It ends where the walk over its collapsed text ends. */
  lemma SpanEndsVisibly(s: Text, start: nat, end: nat)
    requires start < end <= |s| && !IsSpace(s[end - 1])
    ensures |Collapse(s[start..end])| >= 1
    ensures end == Advance(s, start, |Collapse(s[start..end])| - 1) + 1
  {
    hide IsSpace;
    CollapseLastVisible(s, start, end, end);
    AdvanceReaches(s, start, end - 1);
    assert s[end..end] == [];
  }

  lemma TightSpan(s: Text, start: nat, end: nat)
    requires start <= end <= |s| && Tight(Collapse(s[start..end])) && Collapse(s[start..end]) != []
    ensures start < end && !IsSpace(s[start]) && !IsSpace(s[end - 1])
  {
    hide IsSpace;
    CollapseEnds(s[start..end]);
  }

  /** There is only one such span, so the edit is determined. */
  lemma FirstSpanIsUnique(s: Text, old_string: Text, a: nat, b: nat, c: nat, d: nat)
    requires FirstSpan(s, old_string, a, b) && FirstSpan(s, old_string, c, d)
    ensures a == c && b == d
  {
    hide IsSpace;
    TrimIsTight(Collapse(old_string));
    if NormalizeWhitespace(old_string) != [] {
      TightSpan(s, a, b);
      TightSpan(s, c, d);
      SkipIsFirst(s, a, a);
      SkipIsFirst(s, c, c);
      SpanEndsVisibly(s, a, b);
      SpanEndsVisibly(s, c, d);
    }
  }

  /** An exact occurrence is replaced, the first one; failing that, the first span that reads like
      `old`; failing that, the line-based ladder decides, whose algorithm is a parameter here. */
  method ComputeEdit(content: Text, old_string: Text, new_string: Text, ladder: (Text, Text, Text) -> Option<Text>)
    returns (outcome: EditOutcome)
    ensures IndexOf(content, old_string) != -1 ==>
      var k := IndexOf(content, old_string);
      outcome == Edited(content[..k] + new_string + content[k + |old_string|..])
    ensures IndexOf(content, old_string) == -1 && (exists a, b :: ReadsLike(content, a, b, old_string)) ==>
      exists start: nat, end: nat :: FirstSpan(content, old_string, start, end)
        && outcome == Edited(content[..start] + new_string + content[end..])
    ensures IndexOf(content, old_string) == -1 && !(exists a, b :: ReadsLike(content, a, b, old_string)) ==>
      outcome == match ladder(content, old_string, new_string) case None => NoMatch case Some(r) => Edited(r)
  {
    var exactIdx := IndexOf(content, old_string);
    if exactIdx != -1 {
      return Edited(content[..exactIdx] + new_string + content[exactIdx + |old_string|..]);
    }
    NormalizedMatchIffSpan(content, old_string);
    var normalizedOld := NormalizeWhitespace(old_string);
    var normalizedIdx := IndexOf(NormalizeWhitespace(content), normalizedOld);
    if normalizedIdx != -1 {
      var start, end := FindOriginalSpan(content, normalizedIdx, |normalizedOld|);
      SpanReadsLike(content, old_string, normalizedIdx);
      forall a, b | ReadsLike(content, a, b, old_string) && normalizedOld != []
        ensures start <= SkipFrom(content, a)
      {
        SpanTakenIsFirst(content, old_string, a, b);
      }
      if normalizedOld == [] { assert OccursAt(NormalizeWhitespace(content), normalizedOld, 0); }
      assert FirstSpan(content, old_string, start, end);
      return Edited(content[..start] + new_string + content[end..]);
    }
    var tried := ladder(content, old_string, new_string);
    match tried
    case None => return NoMatch;
    case Some(r) => return Edited(r);
  }
}
