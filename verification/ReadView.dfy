/** The views of a file that the read tool renders: raw, a page of lines, or numbered lines. */
module ReadView {
  import opened Sequences
  import opened JsText

  /** `join("\n")`. */
  function JoinLines(lines: seq<Text>): Text {
    if lines == [] then [] else if |lines| == 1 then lines[0] else lines[0] + [NEWLINE] + JoinLines(lines[1..])
  }

  const ZERO: CodeUnit := 0x30

  predicate IsDigit(c: CodeUnit) { 0x30 <= c <= 0x39 }

  function Decimal(n: nat): Text {
    if n < 10 then [ZERO + n] else Decimal(n / 10) + [ZERO + n % 10]
  }

  /** Each line behind its number and a tab. */
  function Numbered(lines: seq<Text>, start: nat): (r: seq<Text>)
    ensures |r| == |lines|
  {
    if lines == [] then [] else [Decimal(start) + [TAB] + lines[0]] + Numbered(lines[1..], start + 1)
  }

  lemma {:induction false} NumberedAt(lines: seq<Text>, start: nat, i: nat)
    requires i < |lines|
    ensures Numbered(lines, start)[i] == Decimal(start + i) + [TAB] + lines[i]
  {
    hide Decimal;
    if i > 0 { NumberedAt(lines[1..], start + 1, i - 1); }
  }

  function Start(offset: Option<int>): nat { if offset.Some? then Max(1, offset.value) else 1 }

  /** The lines a page shows: from line `start` on, `limit` of them if there is a limit. */
  function Page(lines: seq<Text>, start: nat, limit: Option<nat>): seq<Text>
    requires start >= 1
  {
    var end := if limit.Some? then Min(|lines|, start - 1 + limit.value) else |lines|;
    if start - 1 <= end then lines[start - 1..end] else []
  }

  function RenderView(content: Text, lineNumbers: bool, offset: Option<int>, limit: Option<nat>): Text {
    if !lineNumbers && offset.None? && limit.None? then content
    else
      var slice := Page(SplitLines(content), Start(offset), limit);
      JoinLines(if lineNumbers then Numbered(slice, Start(offset)) else slice)
  }

  // ---- Splitting and joining ----------------------------------------------------------------------

  ghost predicate Unbroken(lines: seq<Text>) { forall i :: 0 <= i < |lines| ==> NEWLINE !in lines[i] }

  lemma JoinHead(line: Text, rest: seq<Text>)
    requires rest != []
    ensures JoinLines([line] + rest) == line + [NEWLINE] + JoinLines(rest)
  {
    assert ([line] + rest)[1..] == rest;
  }

  lemma JoinLongerHead(c: CodeUnit, lines: seq<Text>)
    requires lines != []
    ensures JoinLines([[c] + lines[0]] + lines[1..]) == [c] + JoinLines(lines)
  {
    var longer := [[c] + lines[0]] + lines[1..];
    assert longer[1..] == lines[1..];
    if |lines| > 1 {
      AppendAssociative([c], lines[0], [NEWLINE]);
      AppendAssociative([c], lines[0] + [NEWLINE], JoinLines(lines[1..]));
    }
  }

  lemma {:induction false} JoinUndoesSplit(s: Text)
    ensures JoinLines(SplitLines(s)) == s && Unbroken(SplitLines(s))
  {
    hide JoinLines;
    if s == [] {
      JoinNothing();
    } else {
      var rest := SplitLines(s[1..]);
      JoinUndoesSplit(s[1..]);
      assert s == [s[0]] + s[1..];
      JoinHead([], rest);
      JoinLongerHead(s[0], rest);
    }
  }

  lemma JoinNothing()
    ensures JoinLines([[]]) == []
  {
  }

  lemma {:induction false} SplitBehindLine(line: Text, rest: Text)
    requires NEWLINE !in line
    ensures SplitLines(line + [NEWLINE] + rest) == [line] + SplitLines(rest)
    ensures SplitLines(line) == [line]
  {
    if line == [] {
      assert (line + [NEWLINE] + rest)[1..] == rest;
    } else {
      assert line[0] in line && line == [line[0]] + line[1..];
      assert (line + [NEWLINE] + rest)[1..] == line[1..] + [NEWLINE] + rest;
      SplitBehindLine(line[1..], rest);
    }
  }

  lemma {:induction false} SplitUndoesJoin(lines: seq<Text>)
    requires lines != [] && Unbroken(lines)
    ensures SplitLines(JoinLines(lines)) == lines
  {
    if |lines| == 1 {
      SplitBehindLine(lines[0], []);
    } else {
      SplitUndoesJoin(lines[1..]);
      SplitBehindLine(lines[0], JoinLines(lines[1..]));
      assert lines == [lines[0]] + lines[1..];
    }
  }

  lemma {:induction false} JoinAppend(a: seq<Text>, b: seq<Text>)
    requires a != [] && b != []
    ensures JoinLines(a + b) == JoinLines(a) + [NEWLINE] + JoinLines(b)
  {
    assert (a + b)[1..] == a[1..] + b;
    if |a| > 1 { JoinAppend(a[1..], b); } else { assert a[1..] + b == b; }
  }

  // ---- Paging -------------------------------------------------------------------------------------

  /** What a reader gets who asks for page after page of `size` lines, beginning with line `from`. */
  function Pages(content: Text, size: nat, from: nat): seq<Text>
    requires size >= 1 && from >= 1
    decreases |SplitLines(content)| + 1 - from
  {
    if from > |SplitLines(content)| then []
    else [RenderView(content, false, Some(from), Some(size))] + Pages(content, size, from + size)
  }

  lemma OnePage(content: Text, from: nat, size: nat)
    requires 1 <= from <= |SplitLines(content)|
    ensures RenderView(content, false, Some(from), Some(size))
         == JoinLines(SplitLines(content)[from - 1..Min(|SplitLines(content)|, from - 1 + size)])
  {
  }

  lemma Cut<T>(s: seq<T>, i: nat, k: nat)
    requires i <= k <= |s|
    ensures s[i..] == s[i..k] + s[k..] && s[i..|s|] == s[i..]
  {
  }

  lemma {:induction false} PagesFrom(content: Text, size: nat, from: nat)
    requires size >= 1 && 1 <= from <= |SplitLines(content)|
    ensures Pages(content, size, from) != []
    ensures JoinLines(Pages(content, size, from)) == JoinLines(SplitLines(content)[from - 1..])
    decreases |SplitLines(content)| + 1 - from
  {
    hide SplitLines, JoinLines, RenderView;
    var lines, next := SplitLines(content), from + size;
    var first, rest := RenderView(content, false, Some(from), Some(size)), Pages(content, size, next);
    OnePage(content, from, size);
    if next > |lines| {
      Cut(lines, from - 1, |lines|);
      JoinOne(first);
      assert Pages(content, size, from) == [first];
    } else {
      PagesFrom(content, size, next);
      Cut(lines, from - 1, next - 1);
      JoinAppend(lines[from - 1..next - 1], lines[next - 1..]);
      JoinOne(first);
      JoinAppend([first], rest);
    }
  }

  lemma JoinOne(line: Text)
    ensures JoinLines([line]) == line
  {
  }

  /** Paging through a file and joining the pages gives back the file, and so does a single page that
      starts at or before the first line and has no limit. */
  lemma PagesReassemble(content: Text, size: nat, offset: int)
    requires size >= 1
    ensures JoinLines(Pages(content, size, 1)) == content
    ensures offset <= 1 ==> RenderView(content, false, Some(offset), None) == content
  {
    var lines := SplitLines(content);
    PagesFrom(content, size, 1);
    assert lines[0..] == lines && lines[0..|lines|] == lines;
    JoinUndoesSplit(content);
  }

  /** Without an offset a view starts at the first line, numbered or not. */
  lemma NoOffsetIsFirstLine(content: Text, lineNumbers: bool, offset: int, limit: Option<nat>)
    requires offset <= 1
    ensures RenderView(content, lineNumbers, None, limit) == RenderView(content, lineNumbers, Some(offset), limit)
  {
    if !lineNumbers && limit.None? { PagesReassemble(content, 1, offset); }
  }

  // ---- Reading a numbered view back ---------------------------------------------------------------

  function ValueOf(digits: Text): int {
    if digits == [] then 0 else ValueOf(digits[..|digits| - 1]) * 10 + (digits[|digits| - 1] - ZERO)
  }

  function TabPosition(line: Text): (k: nat)
    ensures k <= |line|
  {
    if line == [] || line[0] == TAB then 0 else 1 + TabPosition(line[1..])
  }

  /** The number in front of the first tab of a line, and the text behind it. */
  function ReadBack(line: Text): (int, Text) {
    var k := TabPosition(line);
    (ValueOf(line[..k]), if k < |line| then line[k + 1..] else [])
  }

  lemma {:induction false} DecimalReadsBack(n: nat)
    ensures ValueOf(Decimal(n)) == n
    ensures forall i :: 0 <= i < |Decimal(n)| ==> IsDigit(Decimal(n)[i])
  {
    if n < 10 {
      assert Decimal(n)[..0] == [];
    } else {
      DecimalReadsBack(n / 10);
      assert Decimal(n)[..|Decimal(n)| - 1] == Decimal(n / 10);
    }
  }

  lemma {:induction false} TabBehindDigits(digits: Text, line: Text)
    requires forall i :: 0 <= i < |digits| ==> IsDigit(digits[i])
    ensures TabPosition(digits + [TAB] + line) == |digits|
  {
    if digits != [] {
      assert (digits + [TAB] + line)[1..] == digits[1..] + [TAB] + line;
      TabBehindDigits(digits[1..], line);
    } else {
      assert digits + [TAB] + line == [TAB] + line;
    }
  }

  lemma NumberedLineReadsBack(n: nat, line: Text)
    ensures ReadBack(Decimal(n) + [TAB] + line) == (n, line)
    ensures NEWLINE !in line ==> NEWLINE !in Decimal(n) + [TAB] + line
  {
    DecimalReadsBack(n);
    TabBehindDigits(Decimal(n), line);
    var s := Decimal(n) + [TAB] + line;
    assert s[..|Decimal(n)|] == Decimal(n) && s[|Decimal(n)| + 1..] == line;
  }

  /** Each shown line reads back as a number and the whole text of the line with that number. */
  ghost predicate ShowsNumbered(lines: seq<Text>, start: nat, shown: seq<Text>) {
    && 1 <= start && start - 1 + |shown| <= |lines|
    && forall i :: 0 <= i < |shown| ==> ReadBack(shown[i]) == (start + i, lines[start - 1 + i])
  }

  lemma PageShape(lines: seq<Text>, start: nat, limit: Option<nat>)
    requires start >= 1 && Available(lines, start, limit) >= 1
    ensures Page(lines, start, limit) == lines[start - 1..start - 1 + Available(lines, start, limit)]
  {
  }

  lemma NumberedReadsBack(lines: seq<Text>, start: nat, n: nat)
    requires 1 <= start && 1 <= n && start - 1 + n <= |lines| && Unbroken(lines)
    ensures var shown := SplitLines(JoinLines(Numbered(lines[start - 1..start - 1 + n], start)));
      |shown| == n && ShowsNumbered(lines, start, shown)
  {
    hide SplitLines, JoinLines, Decimal, ReadBack, Numbered;
    var slice := lines[start - 1..start - 1 + n];
    var numbered := Numbered(slice, start);
    forall i | 0 <= i < n
      ensures NEWLINE !in numbered[i] && ReadBack(numbered[i]) == (start + i, lines[start - 1 + i])
    {
      assert slice[i] == lines[start - 1 + i];
      NumberedAt(slice, start, i);
      NumberedLineReadsBack(start + i, slice[i]);
    }
    SplitUndoesJoin(numbered);
  }

  lemma NumberedView(content: Text, offset: Option<int>, limit: Option<nat>)
    ensures RenderView(content, true, offset, limit)
         == JoinLines(Numbered(Page(SplitLines(content), Start(offset), limit), Start(offset)))
  {
  }

  /** How many lines a page that starts at line `start` can show. */
  function Available(lines: seq<Text>, start: nat, limit: Option<nat>): int {
    Min(|lines| - (start - 1), if limit.Some? then limit.value else |lines|)
  }

  lemma NumberedPageReadsBack(lines: seq<Text>, start: nat, limit: Option<nat>)
    requires start >= 1 && Available(lines, start, limit) >= 1 && Unbroken(lines)
    ensures var shown := SplitLines(JoinLines(Numbered(Page(lines, start, limit), start)));
      |shown| == Available(lines, start, limit) && ShowsNumbered(lines, start, shown)
  {
    hide *;
    PageShape(lines, start, limit);
    AvailableFits(lines, start, limit);
    NumberedReadsBack(lines, start, Available(lines, start, limit));
  }

  lemma AvailableFits(lines: seq<Text>, start: nat, limit: Option<nat>)
    ensures start - 1 + Available(lines, start, limit) <= |lines|
  {
  }

  lemma StartIsPositive(offset: Option<int>)
    ensures Start(offset) >= 1
  {
  }

  lemma NothingAvailable(lines: seq<Text>, start: nat, limit: Option<nat>)
    requires start >= 1 && Available(lines, start, limit) < 1
    ensures JoinLines(Numbered(Page(lines, start, limit), start)) == []
  {
  }

  /** Every line of a numbered view carries its number in the file and the whole text of that line, even
      when the text itself holds tabs or digits; as many lines are shown as the file has and the limit
      allows. A page behind the last line is empty. */
  lemma NumberedViewReadsBack(content: Text, offset: Option<int>, limit: Option<nat>)
    ensures var view, available := RenderView(content, true, offset, limit), Available(SplitLines(content), Start(offset), limit);
      if available < 1 then view == []
      else |SplitLines(view)| == available && ShowsNumbered(SplitLines(content), Start(offset), SplitLines(view))
  {
    hide *;
    StartIsPositive(offset);
    NumberedView(content, offset, limit);
    if Available(SplitLines(content), Start(offset), limit) < 1 {
      NothingAvailable(SplitLines(content), Start(offset), limit);
    } else {
      JoinUndoesSplit(content);
      NumberedPageReadsBack(SplitLines(content), Start(offset), limit);
    }
  }
}
