/** The built-in text processors: the four-pass white-space normaliser and the token cap. */
module Processors {
  import opened Sequences
  import opened JsText
  import Compaction

  // ---- The four passes ----------------------------------------------------------------------------

  /** White space within a line: the class `[^\S\n]`. */
  predicate Inline(c: CodeUnit) { IsSpace(c) && c != NEWLINE }

  function SkipInline(s: Text, i: nat): (j: nat)
    requires i <= |s|
    ensures i <= j <= |s|
    ensures forall k :: i <= k < j ==> Inline(s[k])
    ensures j < |s| ==> !Inline(s[j])
    decreases |s| - i
  {
    if i < |s| && Inline(s[i]) then SkipInline(s, i + 1) else i
  }

  function SkipUnit(c: CodeUnit, s: Text, i: nat): (j: nat)
    requires i <= |s|
    ensures i <= j <= |s|
    ensures forall k :: i <= k < j ==> s[k] == c
    ensures j < |s| ==> s[j] != c
    decreases |s| - i
  {
    if i < |s| && s[i] == c then SkipUnit(c, s, i + 1) else i
  }

  /** `replace(/[^\S\n]+/g, " ")`. */
  function SpaceOut(s: Text): Text
    decreases |s|
  {
    if s == [] then []
    else if Inline(s[0]) then [SPACE] + SpaceOut(s[SkipInline(s, 1)..])
    else [s[0]] + SpaceOut(s[1..])
  }

  // The second pass replaces each newline together with the spaces on both sides of it by the newline
  // alone, leftmost match first.
  function HugNewlines(s: Text): Text
    decreases |s|
  {
    if s == [] then []
    else
      var k := SkipUnit(SPACE, s, 0);
      if k < |s| && s[k] == NEWLINE then [NEWLINE] + HugNewlines(s[SkipUnit(SPACE, s, k + 1)..])
      else [s[0]] + HugNewlines(s[1..])
  }

  /** `replace(/\n{3,}/g, "\n\n")`. */
  function CapNewlines(s: Text): Text
    decreases |s|
  {
    if s == [] then []
    else
      var k := SkipUnit(NEWLINE, s, 0);
      if k >= 3 then [NEWLINE, NEWLINE] + CapNewlines(s[k..])
      else [s[0]] + CapNewlines(s[1..])
  }

  function ThreePasses(s: Text): Text { CapNewlines(HugNewlines(SpaceOut(s))) }

  function CollapseWhitespace(s: Text): Text { Trim(ThreePasses(s)) }

  // ---- What the passes are for --------------------------------------------------------------------

  function Newlines(s: Text): nat {
    if s == [] then 0 else (if s[0] == NEWLINE then 1 else 0) + Newlines(s[1..])
  }

  function Repeat(n: nat): (r: Text)
    ensures |r| == n && forall i :: 0 <= i < n ==> r[i] == NEWLINE
  {
    seq(n, _ => NEWLINE)
  }

  /** What stands between two words: one space, one line break, or one blank line. */
  function Separator(gap: Text): Text {
    if Newlines(gap) == 0 then [SPACE] else Repeat(Min(Newlines(gap), 2))
  }

  /** The words of `s`, joined by separators; a gap at the end is dropped. */
  function Words(s: Text): Text
    decreases |s|
  {
    if s == [] then []
    else if !IsSpace(s[0]) then [s[0]] + Words(s[1..])
    else
      var j := SkipFrom(s, 0);
      if j == |s| then [] else Separator(s[..j]) + Words(s[j..])
  }

  function WordsJoined(s: Text): Text { Words(s[SkipFrom(s, 0)..]) }

  // ---- Each pass on a gap and what follows it -----------------------------------------------------

  ghost predicate Visible(s: Text) { s == [] || !IsSpace(s[0]) }

  ghost predicate Blank(s: Text) { forall c :: c in s ==> IsSpace(c) }

  ghost predicate SpacesAndNewlines(s: Text) {
    forall k :: 0 <= k < |s| ==> s[k] == SPACE || s[k] == NEWLINE
  }

  lemma {:induction false} SkipUnitIs(c: CodeUnit, s: Text, i: nat, j: nat)
    requires i <= j <= |s| && (forall k :: i <= k < j ==> s[k] == c) && (j < |s| ==> s[j] != c)
    ensures SkipUnit(c, s, i) == j
    decreases j - i
  {
    if i < j { SkipUnitIs(c, s, i + 1, j); }
  }

  lemma {:induction false} SkipInlineIs(s: Text, i: nat, j: nat)
    requires i <= j <= |s| && (forall k :: i <= k < j ==> Inline(s[k])) && (j < |s| ==> !Inline(s[j]))
    ensures SkipInline(s, i) == j
    decreases j - i
  {
    if i < j { SkipInlineIs(s, i + 1, j); }
  }

  lemma BlankTail(gap: Text, i: nat)
    requires Blank(gap) && i <= |gap|
    ensures Blank(gap[i..])
  {
  }

  lemma {:induction false} SpaceOutCut(a: Text, b: Text)
    requires b == [] || !Inline(b[0])
    ensures SpaceOut(a + b) == SpaceOut(a) + SpaceOut(b)
    decreases |a|
  {
    hide Inline;
    if a == [] {
      assert a + b == b;
    } else if Inline(a[0]) {
      var j := SkipInline(a, 1);
      SkipInlineIs(a + b, 1, j);
      assert (a + b)[j..] == a[j..] + b;
      SpaceOutCut(a[j..], b);
    } else {
      assert (a + b)[1..] == a[1..] + b;
      SpaceOutCut(a[1..], b);
    }
  }

  /** The first pass turns a gap into spaces and newlines, keeping the newlines. */
  lemma {:induction false} SpaceOutGap(gap: Text)
    requires Blank(gap)
    ensures SpacesAndNewlines(SpaceOut(gap))
    ensures Newlines(SpaceOut(gap)) == Newlines(gap)
    decreases |gap|
  {
    hide IsSpace;
    if gap != [] {
      assert gap[0] in gap;
      if Inline(gap[0]) {
        var j := SkipInline(gap, 1);
        BlankTail(gap, j);
        SpaceOutGap(gap[j..]);
        NoNewlinesInFront(gap, j);
      } else {
        BlankTail(gap, 1);
        SpaceOutGap(gap[1..]);
      }
    }
  }

  lemma SpaceOutInline(gap: Text)
    requires gap != [] && Blank(gap) && Newlines(gap) == 0
    ensures SpaceOut(gap) == [SPACE]
  {
    hide IsSpace;
    InlineThroughout(gap);
    SkipInlineIs(gap, 1, |gap|);
    assert gap[0] in gap && gap[|gap|..] == [];
  }

  lemma {:induction false} InlineThroughout(gap: Text)
    requires Blank(gap) && Newlines(gap) == 0
    ensures forall k :: 0 <= k < |gap| ==> Inline(gap[k])
  {
    hide IsSpace;
    if gap != [] {
      assert gap[0] in gap;
      BlankTail(gap, 1);
      InlineThroughout(gap[1..]);
      assert forall k :: 0 < k < |gap| ==> gap[k] == gap[1..][k - 1];
    }
  }

  lemma {:induction false} NoNewlinesInFront(s: Text, j: nat)
    requires j <= |s| && forall k :: 0 <= k < j ==> s[k] != NEWLINE
    ensures Newlines(s) == Newlines(s[j..])
  {
    if j == 0 { assert s[0..] == s; } else {
      assert s[1..][j - 1..] == s[j..];
      NoNewlinesInFront(s[1..], j - 1);
    }
  }

  lemma AllButNewlines(s: Text)
    requires Newlines(s) == 0
    ensures NEWLINE !in s
  {
    if s != [] { AllButNewlines(s[1..]); }
  }

  lemma LayoutTail(gap: Text, i: nat)
    requires SpacesAndNewlines(gap) && i <= |gap|
    ensures SpacesAndNewlines(gap[i..])
  {
  }

  /** A space that no newline follows passes the second pass. */
  lemma HugSpace(rest: Text)
    requires Visible(rest)
    ensures HugNewlines([SPACE] + rest) == [SPACE] + HugNewlines(rest)
  {
    hide IsSpace;
    if rest != [] { VisibleIsNoBreak(rest); }
    var s := [SPACE] + rest;
    SkipUnitIs(SPACE, s, 0, 1);
    assert s[1..] == rest;
  }

  lemma VisibleIsNoBreak(s: Text)
    requires Visible(s) && s != []
    ensures s[0] != SPACE && s[0] != NEWLINE
  {
  }

  lemma DropInFront(a: Text, b: Text, m: nat)
    requires m <= |a|
    ensures (a + b)[m..] == a[m..] + b
  {
  }

  lemma NewlineAhead(gap: Text)
    requires SpacesAndNewlines(gap) && Newlines(gap) > 0
    ensures var k := SkipUnit(SPACE, gap, 0);
      k < |gap| && gap[k] == NEWLINE && Newlines(gap[k..]) == Newlines(gap)
  {
    NoNewlinesInFront(gap, SkipUnit(SPACE, gap, 0));
  }

  /** The match at the first newline of a gap takes the spaces around it. */
  lemma HugFirst(gap: Text, rest: Text, k: nat, m: nat)
    requires Visible(rest) && k == SkipUnit(SPACE, gap, 0) && k < |gap| && gap[k] == NEWLINE
    requires m == SkipUnit(SPACE, gap, k + 1)
    ensures HugNewlines(gap + rest) == [NEWLINE] + HugNewlines(gap[m..] + rest)
  {
    hide IsSpace;
    var s := gap + rest;
    if rest != [] { VisibleIsNoBreak(rest); }
    SkipUnitIs(SPACE, s, 0, k);
    SkipUnitIs(SPACE, s, k + 1, m);
    DropInFront(gap, rest, m);
  }

  /** The second pass drops every space of a gap that has a newline. */
  lemma {:induction false} HugGap(gap: Text, rest: Text)
    requires SpacesAndNewlines(gap) && Visible(rest) && Newlines(gap) > 0
    ensures HugNewlines(gap + rest) == Repeat(Newlines(gap)) + HugNewlines(rest)
    decreases |gap|
  {
    hide IsSpace, HugNewlines, Newlines;
    NewlineAhead(gap);
    var k := SkipUnit(SPACE, gap, 0);
    var m := SkipUnit(SPACE, gap, k + 1);
    HugFirst(gap, rest, k, m);
    LayoutTail(gap, m);
    NewlineThenSpaces(gap, k, m);
    if Newlines(gap[m..]) == 0 {
      assert [] + rest == rest;
    } else {
      HugGap(gap[m..], rest);
      AppendAssociative([NEWLINE], Repeat(Newlines(gap[m..])), HugNewlines(rest));
    }
  }

  lemma NewlineThenSpaces(gap: Text, k: nat, m: nat)
    requires SpacesAndNewlines(gap) && k < m <= |gap| && gap[k] == NEWLINE
    requires (forall i :: k < i < m ==> gap[i] == SPACE) && (m < |gap| ==> gap[m] != SPACE)
    ensures Newlines(gap[k..]) == 1 + Newlines(gap[m..])
    ensures Newlines(gap[m..]) == 0 ==> gap[m..] == []
    ensures [NEWLINE] + Repeat(Newlines(gap[m..])) == Repeat(Newlines(gap[k..]))
  {
    assert gap[k..][1..] == gap[k + 1..] && gap[k + 1..][m - k - 1..] == gap[m..];
    NoNewlinesInFront(gap[k + 1..], m - k - 1);
    if m < |gap| { assert gap[m..][0] == gap[m]; }
  }

  lemma RepeatNext(n: nat, rest: Text)
    ensures Repeat(n + 1) == [NEWLINE] + Repeat(n)
    ensures (Repeat(n + 1) + rest)[1..] == Repeat(n) + rest
    ensures (Repeat(n) + rest)[n..] == rest
  {
  }

  /** The third pass leaves at most two newlines of a run. */
  lemma {:induction false} CapRun(n: nat, rest: Text)
    requires rest == [] || rest[0] != NEWLINE
    ensures CapNewlines(Repeat(n) + rest) == Repeat(Min(n, 2)) + CapNewlines(rest)
    decreases n
  {
    var s := Repeat(n) + rest;
    SkipUnitIs(NEWLINE, s, 0, n);
    RepeatNext(n, rest);
    if n == 0 {
      assert s == rest && Repeat(0) + CapNewlines(rest) == CapNewlines(rest);
    } else if n >= 3 {
      assert Repeat(2) == [NEWLINE, NEWLINE];
    } else {
      RepeatNext(n - 1, rest);
      CapRun(n - 1, rest);
      AppendAssociative([NEWLINE], Repeat(n - 1), CapNewlines(rest));
    }
  }

  /** A visible character passes through all three passes. */
  lemma VisiblePasses(c: CodeUnit, s: Text)
    requires !IsSpace(c)
    ensures ThreePasses([c] + s) == [c] + ThreePasses(s)
    ensures SpaceOut([c] + s) == [c] + SpaceOut(s)
    ensures HugNewlines([c] + SpaceOut(s)) == [c] + HugNewlines(SpaceOut(s))
  {
    assert ([c] + s)[1..] == s;
    var t := SpaceOut(s);
    assert ([c] + t)[1..] == t;
    var u := HugNewlines(t);
    assert ([c] + u)[1..] == u;
  }

  /** A visible text stays visible through the passes. */
  lemma PassesKeepVisible(s: Text)
    requires Visible(s)
    ensures Visible(SpaceOut(s)) && Visible(HugNewlines(SpaceOut(s))) && Visible(ThreePasses(s))
    ensures s == [] <==> ThreePasses(s) == []
  {
    hide IsSpace;
    if s != [] {
      assert s == [s[0]] + s[1..];
      VisiblePasses(s[0], s[1..]);
    }
  }

  /** A gap becomes its separator. */
  lemma GapPasses(gap: Text, rest: Text)
    requires gap != [] && Blank(gap) && Visible(rest)
    ensures ThreePasses(gap + rest) == Separator(gap) + ThreePasses(rest)
  {
    hide IsSpace;
    SpaceOutCut(gap, rest);
    PassesKeepVisible(rest);
    SpaceOutGap(gap);
    var u := HugNewlines(SpaceOut(rest));
    if Newlines(gap) == 0 {
      SpaceOutInline(gap);
      HugSpace(SpaceOut(rest));
      assert ([SPACE] + u)[1..] == u;
    } else {
      HugGap(SpaceOut(gap), SpaceOut(rest));
      if u != [] { VisibleIsNoBreak(u); }
      CapRun(Newlines(gap), u);
    }
  }

  // ---- The passes join the words ------------------------------------------------------------------

  ghost predicate EndsInGap(passed: Text, words: Text) {
    words <= passed && Blank(passed[|words|..])
  }

  /** The words behind a visible character: those behind the gap, if there is one. */
  lemma WordsBehind(c: CodeUnit, gap: Text, next: Text)
    requires !IsSpace(c) && Blank(gap) && Visible(next)
    ensures Words([c] + (gap + next)) == [c] + (if next == [] || gap == [] then [] else Separator(gap)) + Words(next)
  {
    hide IsSpace, Separator;
    var rest := gap + next;
    assert ([c] + rest)[1..] == rest;
    if gap == [] {
      assert rest == next && [c] + [] + Words(next) == [c] + Words(next);
    } else {
      assert rest[0] == gap[0] && forall k :: 0 <= k < |gap| ==> rest[k] in gap;
      SkipIsFirst(rest, 0, |gap|);
      assert rest[..|gap|] == gap && rest[|gap|..] == next;
      if next != [] { AppendAssociative([c], Separator(gap), Words(next)); }
    }
  }

  lemma PassesBehind(c: CodeUnit, gap: Text, next: Text)
    requires !IsSpace(c) && Blank(gap) && Visible(next)
    ensures ThreePasses([c] + (gap + next)) == [c] + (if gap == [] then [] else Separator(gap)) + ThreePasses(next)
  {
    hide IsSpace, Separator, ThreePasses;
    VisiblePasses(c, gap + next);
    if gap == [] {
      assert gap + next == next && [c] + [] == [c];
    } else {
      GapPasses(gap, next);
      AppendAssociative([c], Separator(gap), ThreePasses(next));
    }
  }

  lemma SkippedIsGap(s: Text)
    ensures Blank(s[..SkipFrom(s, 0)]) && Visible(s[SkipFrom(s, 0)..])
    ensures s == s[..SkipFrom(s, 0)] + s[SkipFrom(s, 0)..]
  {
    hide IsSpace;
  }

  /** First the visible character, then the gap behind it if there is one. */
  lemma FirstGap(s: Text, j: nat)
    requires s != [] && Visible(s) && j == SkipFrom(s[1..], 0)
    ensures var gap, next := s[1..][..j], s[1..][j..];
      && Blank(gap) && Visible(next)
      && ThreePasses(s) == [s[0]] + (if gap == [] then [] else Separator(gap)) + ThreePasses(next)
      && Words(s) == [s[0]] + (if next == [] || gap == [] then [] else Separator(gap)) + Words(next)
  {
    hide IsSpace, Words, ThreePasses, Separator;
    var gap, next := s[1..][..j], s[1..][j..];
    SkippedIsGap(s[1..]);
    assert s == [s[0]] + (gap + next);
    PassesBehind(s[0], gap, next);
    WordsBehind(s[0], gap, next);
  }

  lemma SeparatorIsBlank(gap: Text)
    ensures Blank(Separator(gap))
  {
  }

  lemma ExtendFront(front: Text, passed: Text, words: Text)
    requires EndsInGap(passed, words) && Tight(words) && words != []
    requires front != [] && !IsSpace(front[0])
    ensures EndsInGap(front + passed, front + words) && Tight(front + words)
  {
    hide IsSpace;
    assert (front + passed)[|front + words|..] == passed[|words|..];
  }

  lemma LastWord(c: CodeUnit, gap: Text)
    requires !IsSpace(c) && Blank(gap)
    ensures EndsInGap([c] + gap, [c]) && Tight([c])
  {
    hide IsSpace;
    assert ([c] + gap)[1..] == gap;
  }

  lemma NothingPasses()
    ensures ThreePasses([]) == [] && Words([]) == [] && EndsInGap([], [])
  {
  }

  /** On a text that starts visibly the passes give the joined words and at most a gap at the end. */
  lemma {:induction false} PassesAreWords(s: Text)
    requires Visible(s)
    ensures EndsInGap(ThreePasses(s), Words(s))
    ensures Tight(Words(s)) && (Words(s) == [] <==> s == [])
    decreases |s|
  {
    hide IsSpace, ThreePasses, Words, EndsInGap;
    NothingPasses();
    if s != [] {
      var j := SkipFrom(s[1..], 0);
      var gap, next := s[1..][..j], s[1..][j..];
      FirstGap(s, j);
      SeparatorIsBlank(gap);
      var sep := if gap == [] then [] else Separator(gap);
      if next == [] {
        assert [s[0]] + sep + [] == [s[0]] + sep && [s[0]] + [] + [] == [s[0]];
        LastWord(s[0], sep);
      } else {
        PassesAreWords(next);
        ExtendFront([s[0]] + sep, ThreePasses(next), Words(next));
      }
    }
  }

  lemma {:induction false} TrimEndDropsGap(words: Text, gap: Text)
    requires Blank(gap) && Tight(words)
    ensures TrimEnd(words + gap) == words
    decreases |gap|
  {
    hide IsSpace;
    if gap == [] {
      assert words + gap == words;
    } else {
      assert gap[|gap| - 1] in gap;
      assert (words + gap)[..|words + gap| - 1] == words + gap[..|gap| - 1];
      TrimEndDropsGap(words, gap[..|gap| - 1]);
    }
  }

  /** The normaliser gives the words of the text joined by a space, a line break or a blank line,
      and nothing else. */
  lemma CollapseJoinsWords(s: Text)
    ensures CollapseWhitespace(s) == WordsJoined(s)
  {
    hide IsSpace;
    var lead := SkipFrom(s, 0);
    var gap, body := s[..lead], s[lead..];
    assert s == gap + body;
    PassesAreWords(body);
    var words, passed := Words(body), ThreePasses(body);
    assert passed == words + passed[|words|..];
    if lead == 0 {
      assert body == s;
      TrimFront([], passed);
    } else {
      GapPasses(gap, body);
      SeparatorIsBlank(gap);
      TrimFront(Separator(gap), passed);
    }
    if body == [] { assert ThreePasses(body) == []; }
    PassesKeepVisible(body);
    TrimEndDropsGap(words, passed[|words|..]);
  }

  lemma TrimFront(gap: Text, s: Text)
    requires Blank(gap) && Visible(s)
    ensures Trim(gap + s) == TrimEnd(s)
  {
    hide IsSpace;
    assert forall k :: 0 <= k < |gap| ==> (gap + s)[k] in gap;
    SkipIsFirst(gap + s, 0, |gap|);
    assert (gap + s)[|gap|..] == s;
  }

  // ---- The normal form ----------------------------------------------------------------------------

  /** White space stands between visible characters only: a single space, or one or two newlines. */
  ghost predicate Tidy(s: Text) {
    forall i :: 0 <= i < |s| ==> TidyAt(s, i)
  }

  ghost predicate TidyAt(s: Text, i: int)
    requires 0 <= i < |s|
  {
    IsSpace(s[i]) ==>
      && 0 < i < |s| - 1
      && (if s[i] == SPACE then !IsSpace(s[i - 1]) && !IsSpace(s[i + 1])
          else s[i] == NEWLINE && Joins(s[i - 1]) && Joins(s[i + 1])
               && !(s[i - 1] == NEWLINE && s[i + 1] == NEWLINE))
  }

  predicate Joins(c: CodeUnit) { !IsSpace(c) || c == NEWLINE }

  predicate IsSeparator(s: Text) { s == [SPACE] || s == [NEWLINE] || s == [NEWLINE, NEWLINE] }

  lemma SeparatorShape(gap: Text)
    ensures IsSeparator(Separator(gap))
  {
    if Newlines(gap) != 0 { assert Repeat(1) == [NEWLINE] && Repeat(2) == [NEWLINE, NEWLINE]; }
  }

  lemma VisibleOrBreak(c: CodeUnit)
    ensures IsSpace(SPACE) && IsSpace(NEWLINE)
    ensures !IsSpace(c) ==> c != SPACE && c != NEWLINE
  {
  }

  lemma TidyPrepend(c: CodeUnit, sep: Text, s: Text)
    requires !IsSpace(c) && Tidy(s) && Visible(s)
    requires sep == [] || (IsSeparator(sep) && s != [])
    ensures Tidy([c] + sep + s)
  {
    hide IsSpace;
    var t := [c] + sep + s;
    VisibleOrBreak(c);
    if s != [] { VisibleOrBreak(s[0]); }
    forall i | 0 <= i < |t| ensures TidyAt(t, i) {
      if i > |sep| {
        var k := i - 1 - |sep|;
        assert TidyAt(s, k) && t[i] == s[k];
        if k > 0 { assert t[i - 1] == s[k - 1]; }
        if k < |s| - 1 { assert t[i + 1] == s[k + 1]; }
      }
    }
  }

  /** Joined words are tidy. */
  lemma {:induction false} WordsAreTidy(s: Text)
    requires Visible(s)
    ensures Tidy(Words(s)) && Visible(Words(s))
    decreases |s|
  {
    hide IsSpace;
    if s != [] {
      var j := SkipFrom(s[1..], 0);
      var gap, next := s[1..][..j], s[1..][j..];
      FirstGap(s, j);
      PassesAreWords(next);
      WordsAreTidy(next);
      SeparatorShape(gap);
      TidyPrepend(s[0], if next == [] || gap == [] then [] else Separator(gap), Words(next));
    }
  }

  /** The normaliser always reaches the normal form. */
  lemma CollapseReachesTidy(s: Text)
    ensures Tidy(CollapseWhitespace(s))
  {
    CollapseJoinsWords(s);
    WordsAreTidy(s[SkipFrom(s, 0)..]);
  }

  lemma TidyTail(s: Text, j: nat)
    requires Tidy(s) && j <= |s| && (j < |s| ==> !IsSpace(s[j]))
    ensures Tidy(s[j..])
  {
    hide IsSpace;
    forall i | 0 <= i < |s| - j ensures TidyAt(s[j..], i) {
      assert TidyAt(s, i + j) && s[j..][i] == s[i + j];
      if i > 0 { assert s[j..][i - 1] == s[i + j - 1]; }
      if i < |s| - j - 1 { assert s[j..][i + 1] == s[i + j + 1]; }
    }
  }

  /** In a tidy text the gap behind the first character is already a separator. */
  lemma TidyGap(s: Text, j: nat)
    requires Tidy(s) && s != [] && !IsSpace(s[0]) && j == SkipFrom(s[1..], 0) && j > 0
    ensures j < |s| - 1 && Separator(s[1..][..j]) == s[1..][..j]
  {
    hide IsSpace;
    var rest := s[1..];
    assert rest[0] == s[1] && rest[j - 1] == s[j];
    assert TidyAt(s, 1) && TidyAt(s, j);
    assert j == 1 || s[2] == rest[1];
    if s[1] == SPACE {
      assert rest[..j] == [SPACE];
      PlainSeparators();
    } else if j == 1 {
      assert rest[..j] == [NEWLINE];
      PlainSeparators();
    } else {
      assert TidyAt(s, 2) && s[2] == NEWLINE && s[3] == rest[2];
      assert j == 2 && rest[..j] == [NEWLINE, NEWLINE];
      PlainSeparators();
    }
  }

  lemma PlainSeparators()
    ensures Separator([SPACE]) == [SPACE]
    ensures Separator([NEWLINE]) == [NEWLINE]
    ensures Separator([NEWLINE, NEWLINE]) == [NEWLINE, NEWLINE]
  {
    var one: Text, two: Text := [NEWLINE], [NEWLINE, NEWLINE];
    assert one[1..] == [] && two[1..] == one;
    var space: Text := [SPACE];
    assert space[1..] == [] && Newlines(space) == 0;
    assert Newlines(one) == 1;
    assert Newlines(two) == 2;
    assert Repeat(1) == one && Repeat(2) == two;
  }

  lemma {:induction false} TidyTextsAreWords(s: Text)
    requires Tidy(s)
    ensures Visible(s) && Words(s) == s
    decreases |s|
  {
    hide IsSpace;
    if s != [] {
      assert TidyAt(s, 0);
      var j := SkipFrom(s[1..], 0);
      FirstGap(s, j);
      if j > 0 { TidyGap(s, j); }
      TailBehindGap(s, j);
      TidyTail(s, j + 1);
      TidyTextsAreWords(s[j + 1..]);
    }
  }

  lemma TailBehindGap(s: Text, j: nat)
    requires s != [] && j < |s|
    ensures s[1..][j..] == s[j + 1..] && s == [s[0]] + s[1..][..j] + s[j + 1..]
    ensures j + 1 < |s| ==> s[j + 1] == s[1..][j]
  {
  }

  /** A text is left alone exactly when it is in normal form; so normalising twice is normalising
      once. */
  lemma FixedIffTidy(s: Text)
    ensures CollapseWhitespace(s) == s <==> Tidy(s)
    ensures CollapseWhitespace(CollapseWhitespace(s)) == CollapseWhitespace(s)
  {
    CollapseReachesTidy(s);
    TidyIsFixed(CollapseWhitespace(s));
    if Tidy(s) { TidyIsFixed(s); }
  }

  lemma TidyIsFixed(s: Text)
    requires Tidy(s)
    ensures CollapseWhitespace(s) == s
  {
    TidyTextsAreWords(s);
    CollapseJoinsWords(s);
    SkipIsFirst(s, 0, 0);
    assert s[0..] == s;
  }

  // ---- No visible character is lost ---------------------------------------------------------------

  function VisibleOnly(s: Text): Text {
    if s == [] then [] else (if IsSpace(s[0]) then [] else [s[0]]) + VisibleOnly(s[1..])
  }

  lemma {:induction false} VisibleOnlyAppend(a: Text, b: Text)
    ensures VisibleOnly(a + b) == VisibleOnly(a) + VisibleOnly(b)
    decreases |a|
  {
    hide IsSpace;
    if a == [] {
      assert a + b == b;
    } else {
      assert (a + b)[1..] == a[1..] + b;
      VisibleOnlyAppend(a[1..], b);
    }
  }

  lemma {:induction false} BlankHasNothingVisible(gap: Text)
    requires Blank(gap)
    ensures VisibleOnly(gap) == []
  {
    hide IsSpace;
    if gap != [] {
      assert gap[0] in gap;
      BlankTail(gap, 1);
      BlankHasNothingVisible(gap[1..]);
    }
  }

  lemma {:induction false} WordsKeepVisible(s: Text)
    requires Visible(s)
    ensures VisibleOnly(Words(s)) == VisibleOnly(s)
    decreases |s|
  {
    hide IsSpace, Words, ThreePasses, VisibleOnly, Separator;
    NothingPasses();
    if s != [] {
      var j := SkipFrom(s[1..], 0);
      var gap, next := s[1..][..j], s[1..][j..];
      FirstGap(s, j);
      WordsKeepVisible(next);
      BlankHasNothingVisible(gap);
      SeparatorIsBlank(gap);
      var sep := if next == [] || gap == [] then [] else Separator(gap);
      BlankHasNothingVisible(sep);
      assert s == [s[0]] + gap + next;
      VisibleOnlyAppend([s[0]] + gap, next);
      VisibleOnlyAppend([s[0]], gap);
      VisibleOnlyAppend([s[0]] + sep, Words(next));
      VisibleOnlyAppend([s[0]], sep);
    }
  }

  /** The sequence of visible characters is untouched. */
  lemma CollapseKeepsVisible(s: Text)
    ensures VisibleOnly(CollapseWhitespace(s)) == VisibleOnly(s)
  {
    var lead := SkipFrom(s, 0);
    CollapseJoinsWords(s);
    WordsKeepVisible(s[lead..]);
    assert s == s[..lead] + s[lead..];
    VisibleOnlyAppend(s[..lead], s[lead..]);
    BlankHasNothingVisible(s[..lead]);
  }

  /** Unicode-only white space is collapsed like any other: a no-break space becomes a space. */
  lemma NoBreakSpaceIsCollapsed(a: CodeUnit, b: CodeUnit)
    requires !IsSpace(a) && !IsSpace(b)
    ensures CollapseWhitespace([a, NBSP, b]) == [a, SPACE, b]
  {
    var s: Text, gap: Text, last: Text := [a, NBSP, b], [NBSP], [b];
    CollapseJoinsWords(s);
    SkipIsFirst(s, 0, 0);
    assert s[0..] == s && s[1..] == [NBSP, b];
    SkipIsFirst(s[1..], 0, 1);
    FirstGap(s, 1);
    assert s[1..][..1] == gap && s[1..][1..] == last && last[1..] == [] && gap[1..] == [];
    assert Words(last) == [b] + Words([]) == [b];
    assert Newlines(gap) == 0;
  }

  /** White space other than the space and the newline, of Unicode or of ASCII. */
  predicate OtherSpace(c: CodeUnit) { IsSpace(c) && c != SPACE && c != NEWLINE }

  /** None of it survives, so it is left alone exactly when there is none. */
  lemma OtherSpacesKeptIff(s: Text)
    ensures (forall c :: OtherSpace(c) && c in s ==> c in CollapseWhitespace(s)) <==>
      forall c :: OtherSpace(c) ==> c !in s
    ensures forall c :: OtherSpace(c) ==> c !in CollapseWhitespace(s)
  {
    var t := CollapseWhitespace(s);
    CollapseReachesTidy(s);
    forall c | OtherSpace(c) ensures c !in t {
      forall i | 0 <= i < |t| ensures t[i] != c { assert TidyAt(t, i); }
    }
  }

  // ---- The token cap ------------------------------------------------------------------------------

  predicate PairAt(s: Text) { |s| >= 2 && 0xD800 <= s[0] <= 0xDBFF && 0xDC00 <= s[1] <= 0xDFFF }

  /** `[...text]`: a surrogate pair is one element, every other code unit is one by itself. */
  function Spread(s: Text): seq<Text>
    decreases |s|
  {
    if s == [] then []
    else if PairAt(s) then [s[..2]] + Spread(s[2..])
    else [s[..1]] + Spread(s[1..])
  }

  function Join(parts: seq<Text>): Text { if parts == [] then [] else parts[0] + Join(parts[1..]) }

  datatype Strategy = Truncate | Block

  datatype Capped = Kept(text: Text) | Aborted(estimated: nat)

  function Cap(text: Text, limit: nat, strategy: Strategy): Capped {
    if Compaction.EstimateTokens(text) <= limit then Kept(text)
    else if strategy.Block? then Aborted(Compaction.EstimateTokens(text))
    else Kept(FirstCodePoints(text, limit * Compaction.CHARS_PER_TOKEN))
  }

  /** `[...text].slice(0, n).join("")`. */
  function FirstCodePoints(text: Text, n: nat): Text { Join(Spread(text)[..Min(n, |Spread(text)|)]) }

  function Pairs(parts: seq<Text>): nat {
    if parts == [] then 0 else (if |parts[0]| == 2 then 1 else 0) + Pairs(parts[1..])
  }

  /** The first code points of a text: a prefix that spreads to the same elements, as long as their
      number plus one more for each pair. */
  lemma {:induction false} FirstCodePointsShape(s: Text, n: nat)
    requires n <= |Spread(s)|
    ensures Join(Spread(s)[..n]) <= s && (n == |Spread(s)| ==> Join(Spread(s)[..n]) == s)
    ensures Spread(Join(Spread(s)[..n])) == Spread(s)[..n]
    ensures |Join(Spread(s)[..n])| == n + Pairs(Spread(s)[..n])
    decreases |s|
  {
    if n == 0 {
      assert Spread(s)[..0] == [];
    } else {
      var head := if PairAt(s) then s[..2] else s[..1];
      var rest := s[|head|..];
      FirstCodePointsShape(rest, n - 1);
      var parts, tail := Spread(s)[..n], Spread(rest)[..n - 1];
      assert parts == [head] + tail && parts[1..] == tail;
      SpreadStep(s, head, Join(tail));
    }
  }

  lemma SpreadStep(s: Text, head: Text, rest: Text)
    requires s != [] && head == (if PairAt(s) then s[..2] else s[..1])
    requires rest <= s[|head|..]
    ensures Spread(head + rest) == [head] + Spread(rest)
    ensures head + rest <= s
    ensures rest == s[|head|..] ==> head + rest == s
  {
    var t := head + rest;
    assert t[|head|..] == rest && t[..|head|] == head;
  }

  /** Truncating keeps whole code points, so no surrogate pair is split: four for each token of the
      limit, or all there are. */
  lemma CapKeepsWholeCodePoints(text: Text, limit: nat)
    ensures Cap(text, limit, Truncate).Kept?
    ensures var capped := Cap(text, limit, Truncate).text;
      && (Compaction.EstimateTokens(text) <= limit ==> capped == text)
      && capped <= text && Spread(capped) <= Spread(text)
      && (Compaction.EstimateTokens(text) > limit ==> |Spread(capped)| == Min(limit * Compaction.CHARS_PER_TOKEN, |Spread(text)|))
      && Cap(capped, limit, Truncate) == Kept(capped)
  {
    var n := Min(limit * Compaction.CHARS_PER_TOKEN, |Spread(text)|);
    FirstCodePointsShape(text, |Spread(text)|);
    FirstCodePointsShape(text, n);
    var capped := Cap(text, limit, Truncate).text;
    if Compaction.EstimateTokens(text) > limit {
      assert Spread(capped) == Spread(text)[..n];
      assert Spread(capped)[..|Spread(capped)|] == Spread(capped);
      FirstCodePointsShape(capped, |Spread(capped)|);
    } else {
      assert Spread(text)[..|Spread(text)|] == Spread(text);
    }
  }

  /** The first half of a surrogate pair stands at `i`, and the second behind it. */
  ghost predicate PairStarts(s: Text, i: int) {
    0 <= i < |s| - 1 && 0xD800 <= s[i] < 0xDC00 && 0xDC00 <= s[i + 1] < 0xE000
  }

  ghost function PairsIn(s: Text): nat {
    if s == [] then 0 else (if PairStarts(s, 0) then 1 else 0) + PairsIn(s[1..])
  }

  /** A text has one code point for each unit, less one for each surrogate pair. */
  lemma {:induction false} CodePointsCounted(s: Text)
    ensures |Spread(s)| + PairsIn(s) == |s|
    decreases |s|
  {
    if s != [] {
      if PairAt(s) {
        CodePointsCounted(s[2..]);
        assert s[1..][1..] == s[2..];
        assert s[1..][0] == s[1] && !PairStarts(s[1..], 0);
      } else {
        CodePointsCounted(s[1..]);
      }
    }
  }

  lemma PairStartsBehind(s: Text, size: nat, k: nat)
    requires size <= |s|
    ensures k > 0 ==> (PairStarts(s[size..], k - 1) <==> PairStarts(s, size + k - 1))
  {
  }

  /** Taking whole code points never cuts between the halves of a pair. */
  lemma {:induction false} NoPairSplit(s: Text, n: nat)
    requires n <= |Spread(s)|
    ensures !PairStarts(s, |Join(Spread(s)[..n])| - 1)
    decreases |s|
  {
    if n == 0 {
      assert Spread(s)[..0] == [];
    } else {
      var size := if PairAt(s) then 2 else 1;
      var rest := s[size..];
      var parts, tail := Spread(s)[..n], Spread(rest)[..n - 1];
      assert parts[0] == s[..size] && parts[1..] == tail;
      NoPairSplit(rest, n - 1);
      var k := |Join(tail)|;
      assert |Join(parts)| == size + k;
      PairStartsBehind(s, size, k);
    }
  }

  /** So a truncated text does not end inside a pair, and holds four code points for each token of the limit
      or all there are. */
  lemma CapSplitsNoPair(text: Text, limit: nat)
    ensures var capped := Cap(text, limit, Truncate).text;
      && capped <= text
      && (|capped| < |text| ==> !PairStarts(text, |capped| - 1))
      && (Compaction.EstimateTokens(text) > limit ==> |capped| - PairsIn(capped) == Min(4 * limit, |text| - PairsIn(text)))
  {
    hide Cap, Spread, Join, PairsIn, PairStarts, FirstCodePoints;
    CapKeepsWholeCodePoints(text, limit);
    var capped := Cap(text, limit, Truncate).text;
    CodePointsCounted(text);
    CodePointsCounted(capped);
    if Compaction.EstimateTokens(text) > limit {
      var n := Min(limit * Compaction.CHARS_PER_TOKEN, |Spread(text)|);
      TruncatedIs(text, limit);
      NoPairSplit(text, n);
    }
  }

  lemma TruncatedIs(text: Text, limit: nat)
    requires Compaction.EstimateTokens(text) > limit
    ensures Cap(text, limit, Truncate).text == Join(Spread(text)[..Min(limit * Compaction.CHARS_PER_TOKEN, |Spread(text)|)])
  {
  }

  /** Blocking lets exactly the texts pass whose estimate is within the limit, and those whole. */
  lemma BlockAbortsIff(text: Text, limit: nat)
    ensures Cap(text, limit, Block) ==
      if Compaction.EstimateTokens(text) > limit then Aborted(Compaction.EstimateTokens(text)) else Kept(text)
  {
  }

  /** The estimate of a truncated text is within the limit exactly when nothing had to be cut, or when
      the code points kept fill the limit without a single surrogate pair; it is never more than twice
      the limit. */
  lemma CapWithinLimitIff(text: Text, limit: nat)
    ensures var n := limit * Compaction.CHARS_PER_TOKEN;
      Compaction.EstimateTokens(Cap(text, limit, Truncate).text) <= limit <==>
        || Compaction.EstimateTokens(text) <= limit
        || (n <= |Spread(text)| && Pairs(Spread(text)[..n]) == 0)
    ensures Compaction.EstimateTokens(Cap(text, limit, Truncate).text) <= 2 * limit
  {
    var n := Min(limit * Compaction.CHARS_PER_TOKEN, |Spread(text)|);
    FirstCodePointsShape(text, |Spread(text)|);
    FirstCodePointsShape(text, n);
    PairsBounded(Spread(text)[..n]);
    assert Spread(text)[..|Spread(text)|] == Spread(text);
  }

  lemma PairsBounded(parts: seq<Text>)
    ensures Pairs(parts) <= |parts|
  {
    if parts != [] { PairsBounded(parts[1..]); }
  }
}
