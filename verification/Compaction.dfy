/** Transcript compaction: splitting a transcript into an older window and a verbatim tail, and cutting
    it at a checkpoint. */
module Compaction {
  import opened Sequences
  import opened JsText

  datatype Role = User | Assistant | System

  datatype Message = Message(role: Role, content: Text)

  const CHARS_PER_TOKEN := 4

  /** A quarter of the code units, rounded up. */
  function EstimateTokens(text: Text): (tokens: nat)
    ensures |text| <= 4 * tokens && (text != [] ==> 4 * (tokens - 1) < |text|) && (text == [] ==> tokens == 0)
  { (|text| + CHARS_PER_TOKEN - 1) / CHARS_PER_TOKEN }

  function Tokens(messages: seq<Message>): nat {
    if messages == [] then 0 else EstimateTokens(messages[0].content) + Tokens(messages[1..])
  }

  // ---- The token-budget split ---------------------------------------------------------------------

  /** Messages leave from the front until the rest fits the budget or is a single message. */
  function BudgetSplit(messages: seq<Message>, keepTokens: int): (i: nat)
    ensures i <= |messages|
  {
    if |messages| <= 1 || Tokens(messages) <= keepTokens then 0
    else 1 + BudgetSplit(messages[1..], keepTokens)
  }

  /** The tail is the longest that fits, or the last message alone; nothing else would be. */
  ghost predicate IsBudgetSplit(messages: seq<Message>, keepTokens: int, i: nat) {
    && i <= |messages| && (messages != [] ==> i < |messages|)
    && (Tokens(messages[i..]) <= keepTokens || i >= |messages| - 1)
    && forall j :: 0 <= j < i ==> Tokens(messages[j..]) > keepTokens
  }

  lemma {:induction false} BudgetSplitIsLongest(messages: seq<Message>, keepTokens: int)
    ensures IsBudgetSplit(messages, keepTokens, BudgetSplit(messages, keepTokens))
  {
    assert messages[0..] == messages;
    if |messages| > 1 && Tokens(messages) > keepTokens {
      var i := BudgetSplit(messages[1..], keepTokens);
      BudgetSplitIsLongest(messages[1..], keepTokens);
      assert messages[1..][i..] == messages[i + 1..];
      assert forall j :: 0 < j <= i ==> messages[j..] == messages[1..][j - 1..];
    }
  }

  lemma BudgetSplitIsUnique(messages: seq<Message>, keepTokens: int, i: nat)
    requires IsBudgetSplit(messages, keepTokens, i)
    ensures i == BudgetSplit(messages, keepTokens)
  {
    BudgetSplitIsLongest(messages, keepTokens);
  }

  lemma {:induction false} TokensOfLongerTail(messages: seq<Message>, j: nat, i: nat)
    requires j <= i <= |messages|
    ensures Tokens(messages[j..]) >= Tokens(messages[i..])
    decreases i - j
  {
    if j < i {
      assert messages[j..][1..] == messages[j + 1..];
      TokensOfLongerTail(messages, j + 1, i);
    }
  }

  method SelectByTokenBudget(messages: seq<Message>, keepTokens: int) returns (head: seq<Message>, recent: seq<Message>)
    ensures head + recent == messages
    ensures |head| == BudgetSplit(messages, keepTokens)
  {
    var acc := 0;
    var splitIndex := |messages|;
    var i := |messages| - 1;
    while i >= 0
      invariant -1 <= i < |messages| && splitIndex == i + 1
      invariant acc == Tokens(messages[splitIndex..])
      invariant acc <= keepTokens || splitIndex >= |messages| - 1
    {
      assert messages[i..][1..] == messages[i + 1..];
      acc := acc + EstimateTokens(messages[i].content);
      if acc > keepTokens && i < |messages| - 1 {
        splitIndex := i + 1;
        break;
      }
      splitIndex := i;
      i := i - 1;
    }
    forall j | 0 <= j < splitIndex ensures Tokens(messages[j..]) > keepTokens {
      TokensOfLongerTail(messages, j, i);
    }
    BudgetSplitIsUnique(messages, keepTokens, splitIndex);
    return messages[..splitIndex], messages[splitIndex..];
  }

  // ---- The turn-count split -----------------------------------------------------------------------

  /** `slice(0, -n)` and `slice(-n)`. A count of 0 cuts at position 0, a negative one from the front. */
  function SelectCompressionWindow(rest: seq<Message>, preserveLast: int): (seq<Message>, seq<Message>) {
    if |rest| <= preserveLast then ([], rest)
    else (rest[..Position(|rest|, -preserveLast)], rest[Position(|rest|, -preserveLast)..])
  }

  predicate StartsWith(s: Text, prefix: Text) { prefix <= s }

  predicate IsSystemPrompt(m: Message, marker: Text) { m.role.System? && !StartsWith(m.content, marker) }

  function SystemPrompts(messages: seq<Message>, marker: Text): seq<Message> {
    if messages == [] then []
    else (if IsSystemPrompt(messages[0], marker) then [messages[0]] else []) + SystemPrompts(messages[1..], marker)
  }

  function Others(messages: seq<Message>, marker: Text): seq<Message> {
    if messages == [] then []
    else (if IsSystemPrompt(messages[0], marker) then [] else [messages[0]]) + Others(messages[1..], marker)
  }

  // ---- Compaction ---------------------------------------------------------------------------------

  datatype Window = ByCount(keepRecent: int) | ByTokens(keepTokens: int)

  datatype Split = Split(systemPrompts: seq<Message>, head: seq<Message>, recent: seq<Message>)

  function SplitTranscript(messages: seq<Message>, window: Window, marker: Text): Split {
    match window
    case ByTokens(keep) =>
      var i := BudgetSplit(messages, keep);
      Split([], messages[..i], messages[i..])
    case ByCount(keep) =>
      var (toCompress, toPreserve) := SelectCompressionWindow(Others(messages, marker), keep);
      Split(SystemPrompts(messages, marker), toCompress, toPreserve)
  }

  datatype Outcome = Transcript(messages: seq<Message>) | EmptyMarker | SummarizerFailed

  /** `summarize` is the caller's summariser, if any; it answers None when it throws. */
  function CompactTranscript(messages: seq<Message>, window: Window, marker: Text,
                             summarize: Option<seq<Message> -> Option<Message>>, failSafe: bool): Outcome {
    if marker == [] then EmptyMarker
    else
      var split := SplitTranscript(messages, window, marker);
      if split.head == [] then Transcript(messages)
      else if summarize.None? then Transcript(split.systemPrompts + split.recent)
      else match summarize.value(split.head)
        case Some(summary) => Transcript(split.systemPrompts + [summary] + split.recent)
        case None => if failSafe then Transcript(messages) else SummarizerFailed
  }

  function Compacted(messages: seq<Message>, window: Window, marker: Text): seq<Message>
    requires marker != []
  {
    CompactTranscript(messages, window, marker, None, false).messages
  }

  /** Nothing falls between the parts: prompts, older window and tail together are the transcript. */
  lemma {:induction false} PartsAreTheTranscript(messages: seq<Message>, marker: Text)
    ensures multiset(SystemPrompts(messages, marker)) + multiset(Others(messages, marker)) == multiset(messages)
  {
    if messages != [] {
      assert messages == [messages[0]] + messages[1..];
      PartsAreTheTranscript(messages[1..], marker);
    }
  }

  /** `a` is what remains of `b` when some elements are left out. */
  ghost predicate IsSubsequence<T>(a: seq<T>, b: seq<T>) {
    a == [] || (b != [] && (IsSubsequence(a, b[1..]) || (a[0] == b[0] && IsSubsequence(a[1..], b[1..]))))
  }

  lemma {:induction false} PartsKeepOrder(messages: seq<Message>, marker: Text)
    ensures IsSubsequence(SystemPrompts(messages, marker), messages)
    ensures IsSubsequence(Others(messages, marker), messages)
  {
    hide IsSystemPrompt;
    if messages != [] {
      var m, tail := messages[0], messages[1..];
      PartsKeepOrder(tail, marker);
      HeadOrNot(m, SystemPrompts(tail, marker), messages);
      HeadOrNot(m, Others(tail, marker), messages);
    }
  }

  lemma HeadOrNot<T>(x: T, rest: seq<T>, s: seq<T>)
    requires s != [] && s[0] == x && IsSubsequence(rest, s[1..])
    ensures IsSubsequence([x] + rest, s) && IsSubsequence([] + rest, s)
  {
    assert ([x] + rest)[1..] == rest && [] + rest == rest;
  }

  /** The prompts, and the older window followed by the tail, are in transcript order, and together they
      are all its messages. */
  lemma SplitLosesNothing(messages: seq<Message>, window: Window, marker: Text)
    ensures var split := SplitTranscript(messages, window, marker);
      && multiset(split.systemPrompts) + multiset(split.head + split.recent) == multiset(messages)
      && IsSubsequence(split.systemPrompts, messages) && IsSubsequence(split.head + split.recent, messages)
  {
    var split := SplitTranscript(messages, window, marker);
    match window
    case ByTokens(keep) =>
      assert split.head + split.recent == messages;
      SubsequenceOfItself(messages);
    case ByCount(keep) =>
      assert split.head + split.recent == Others(messages, marker);
      PartsAreTheTranscript(messages, marker);
      PartsKeepOrder(messages, marker);
  }

  lemma {:induction false} SubsequenceOfItself<T>(s: seq<T>)
    ensures IsSubsequence(s, s)
  {
    if s != [] { SubsequenceOfItself(s[1..]); }
  }

  // ---- When compacting by count keeps the order ---------------------------------------------------

  /** The turn at `i` is among the last `kept` that are no system prompts. */
  ghost predicate IsKeptTurn(messages: seq<Message>, marker: Text, kept: nat, i: nat)
    requires i < |messages|
  {
    !IsSystemPrompt(messages[i], marker) && |Others(messages[i..], marker)| <= kept
  }

  /** Every system prompt stands before every kept turn. */
  ghost predicate PromptsFirst(messages: seq<Message>, marker: Text, kept: nat) {
    forall i, j :: 0 <= i < j < |messages| && IsSystemPrompt(messages[j], marker) ==>
      !IsKeptTurn(messages, marker, kept, i)
  }

  lemma {:induction false} SubsequenceDropsHead<T>(a: seq<T>, b: seq<T>)
    requires a != [] && IsSubsequence(a, b)
    ensures IsSubsequence(a[1..], b)
  {
    if IsSubsequence(a, b[1..]) {
      SubsequenceDropsHead(a, b[1..]);
      LongerStill(a[1..], b);
    } else {
      LongerStill(a[1..], b);
    }
  }

  lemma LongerStill<T>(a: seq<T>, b: seq<T>)
    requires b != [] && IsSubsequence(a, b[1..])
    ensures IsSubsequence(a, b)
  {
  }

  lemma SameHead<T>(a: seq<T>, b: seq<T>)
    requires a != [] && b != [] && a[0] == b[0]
    ensures IsSubsequence(a, b) <==> IsSubsequence(a[1..], b[1..])
  {
    if IsSubsequence(a, b[1..]) { SubsequenceDropsHead(a, b[1..]); }
  }

  lemma OtherHead<T>(a: seq<T>, b: seq<T>)
    requires a != [] && b != [] && a[0] != b[0]
    ensures IsSubsequence(a, b) <==> IsSubsequence(a, b[1..])
  {
  }

  lemma {:induction false} OthersOfSubsequence(a: seq<Message>, b: seq<Message>, marker: Text)
    requires IsSubsequence(a, b)
    ensures |Others(a, marker)| <= |Others(b, marker)|
  {
    hide IsSystemPrompt;
    if a != [] {
      if IsSubsequence(a, b[1..]) {
        OthersOfSubsequence(a, b[1..], marker);
      } else {
        OthersOfSubsequence(a[1..], b[1..], marker);
      }
    }
  }

  lemma TailPromptsFirst(messages: seq<Message>, marker: Text, kept: nat)
    requires messages != []
    requires IsSystemPrompt(messages[0], marker) || kept < |Others(messages, marker)|
    ensures PromptsFirst(messages, marker, kept) <==> PromptsFirst(messages[1..], marker, kept)
  {
    hide IsSystemPrompt;
    var tail := messages[1..];
    assert messages[0..] == messages;
    assert forall i :: 0 <= i < |tail| ==> tail[i] == messages[i + 1] && tail[i..] == messages[i + 1..];
    assert !IsKeptTurn(messages, marker, kept, 0);
    if PromptsFirst(tail, marker, kept) {
      forall i, j | 0 <= i < j < |messages| && IsSystemPrompt(messages[j], marker)
        ensures !IsKeptTurn(messages, marker, kept, i)
      {
        if i > 0 { assert !IsKeptTurn(tail, marker, kept, i - 1) by { assert IsSystemPrompt(tail[j - 1], marker); } }
      }
    }
    if PromptsFirst(messages, marker, kept) {
      forall i, j | 0 <= i < j < |tail| && IsSystemPrompt(tail[j], marker) ensures !IsKeptTurn(tail, marker, kept, i) {
        assert IsSystemPrompt(messages[j + 1], marker) && !IsKeptTurn(messages, marker, kept, i + 1);
      }
    }
  }

  lemma {:induction false} NoPromptsAllOthers(messages: seq<Message>, marker: Text)
    ensures SystemPrompts(messages, marker) == [] <==> forall j :: 0 <= j < |messages| ==> !IsSystemPrompt(messages[j], marker)
    ensures SystemPrompts(messages, marker) == [] ==> Others(messages, marker) == messages
  {
    hide IsSystemPrompt;
    if messages != [] {
      var tail := messages[1..];
      NoPromptsAllOthers(tail, marker);
      assert messages == [messages[0]] + tail;
      assert forall j :: 0 < j < |messages| ==> messages[j] == tail[j - 1];
      assert forall j :: 0 <= j < |tail| ==> tail[j] == messages[j + 1];
    }
  }

  /** The head goes to one of the two parts. */
  lemma HeadGoes(messages: seq<Message>, marker: Text)
    requires messages != []
    ensures var (prompts, others) := (SystemPrompts(messages[1..], marker), Others(messages[1..], marker));
      if IsSystemPrompt(messages[0], marker)
      then SystemPrompts(messages, marker) == [messages[0]] + prompts && Others(messages, marker) == others
      else SystemPrompts(messages, marker) == prompts && Others(messages, marker) == [messages[0]] + others
  {
    hide IsSystemPrompt;
  }

  lemma DropFromBoth<T>(x: T, rest: seq<T>, kept: nat)
    requires kept <= |rest|
    ensures ([x] + rest)[|[x] + rest| - kept..] == rest[|rest| - kept..]
  {
  }

  /** The prompts followed by the last `kept` turns. */
  function PromptsAndLast(messages: seq<Message>, marker: Text, kept: nat): seq<Message>
    requires kept <= |Others(messages, marker)|
  {
    SystemPrompts(messages, marker) + Others(messages, marker)[|Others(messages, marker)| - kept..]
  }

  lemma PromptInFront(messages: seq<Message>, marker: Text, kept: nat)
    requires messages != [] && kept <= |Others(messages, marker)| && IsSystemPrompt(messages[0], marker)
    ensures kept <= |Others(messages[1..], marker)|
    ensures IsSubsequence(PromptsAndLast(messages, marker, kept), messages) <==>
      IsSubsequence(PromptsAndLast(messages[1..], marker, kept), messages[1..])
  {
    hide IsSystemPrompt, IsSubsequence, SystemPrompts, Others;
    HeadGoes(messages, marker);
    var all := PromptsAndLast(messages, marker, kept);
    assert all == [messages[0]] + PromptsAndLast(messages[1..], marker, kept);
    SameHead(all, messages);
  }

  /** The prompts followed by the last turns are in transcript order if and only if no prompt stands
      behind one of these turns. */
  lemma {:induction false} PromptsThenTurns(messages: seq<Message>, marker: Text, kept: nat)
    requires kept <= |Others(messages, marker)|
    ensures IsSubsequence(PromptsAndLast(messages, marker, kept), messages) <==> PromptsFirst(messages, marker, kept)
    decreases |messages|
  {
    hide IsSystemPrompt, IsSubsequence, SystemPrompts, Others, PromptsFirst, PromptsAndLast;
    if messages == [] {
      NothingToOrder(marker);
    } else {
      HeadGoes(messages, marker);
      if IsSystemPrompt(messages[0], marker) {
        PromptInFront(messages, marker, kept);
        PromptsThenTurns(messages[1..], marker, kept);
        TailPromptsFirst(messages, marker, kept);
      } else if kept < |Others(messages, marker)| {
        PromptsThenTurns(messages[1..], marker, kept);
        TailPromptsFirst(messages, marker, kept);
        TurnInFront(messages, marker, kept);
      } else {
        AllTurnsKept(messages, marker);
      }
    }
  }

  lemma NothingToOrder(marker: Text)
    ensures Others([], marker) == [] && PromptsAndLast([], marker, 0) == []
    ensures IsSubsequence<Message>([], []) && PromptsFirst([], marker, 0)
  {
  }

  /** A turn that is not kept, in front, makes no difference. */
  lemma TurnInFront(messages: seq<Message>, marker: Text, kept: nat)
    requires messages != [] && !IsSystemPrompt(messages[0], marker) && kept < |Others(messages, marker)|
    requires kept <= |Others(messages[1..], marker)|
    requires IsSubsequence(PromptsAndLast(messages[1..], marker, kept), messages[1..])
      <==> PromptsFirst(messages[1..], marker, kept)
    ensures IsSubsequence(PromptsAndLast(messages, marker, kept), messages) <==>
      IsSubsequence(PromptsAndLast(messages[1..], marker, kept), messages[1..])
  {
    hide IsSystemPrompt, IsSubsequence, SystemPrompts, Others;
    HeadGoes(messages, marker);
    var m, tail := messages[0], messages[1..];
    DropFromBoth(m, Others(tail, marker), kept);
    var all, prompts := PromptsAndLast(messages, marker, kept), SystemPrompts(messages, marker);
    assert all == PromptsAndLast(tail, marker, kept);
    if prompts == [] {
      NoPromptsAllOthers(tail, marker);
      HeadOrNot(m, all, messages);
      assert [] + all == all;
    } else {
      Filtered(messages, marker);
      assert prompts[0] in prompts;
      OtherHead(all, messages);
    }
  }

  /** When every turn is kept, the order is that of the transcript if and only if the prompts lead it. */
  lemma AllTurnsKept(messages: seq<Message>, marker: Text)
    requires messages != [] && !IsSystemPrompt(messages[0], marker)
    ensures var kept := |Others(messages, marker)|;
      IsSubsequence(PromptsAndLast(messages, marker, kept), messages) <==> PromptsFirst(messages, marker, kept)
  {
    hide IsSystemPrompt, IsSubsequence, SystemPrompts, Others;
    var prompts, others, tail := SystemPrompts(messages, marker), Others(messages, marker), messages[1..];
    assert PromptsAndLast(messages, marker, |others|) == prompts + others;
    NoPromptsAllOthers(messages, marker);
    if prompts == [] {
      assert prompts + others == messages;
      SubsequenceOfItself(messages);
    } else {
      var j :| 0 <= j < |messages| && IsSystemPrompt(messages[j], marker);
      assert messages[0..] == messages && IsKeptTurn(messages, marker, |others|, 0);
      assert 0 < j;
      Filtered(messages, marker);
      assert prompts[0] in prompts;
      OtherHead(prompts + others, messages);
      FilterAgain(prompts, others, marker);
      HeadGoes(messages, marker);
      if IsSubsequence(prompts + others, tail) { OthersOfSubsequence(prompts + others, tail, marker); }
    }
  }

  lemma {:induction false} FilterAppend(a: seq<Message>, b: seq<Message>, marker: Text)
    ensures SystemPrompts(a + b, marker) == SystemPrompts(a, marker) + SystemPrompts(b, marker)
    ensures Others(a + b, marker) == Others(a, marker) + Others(b, marker)
    decreases |a|
  {
    hide IsSystemPrompt;
    if a == [] {
      assert a + b == b;
      assert [] + SystemPrompts(b, marker) == SystemPrompts(b, marker) && [] + Others(b, marker) == Others(b, marker);
    } else {
      hide SystemPrompts, Others;
      assert (a + b)[1..] == a[1..] + b;
      FilterAppend(a[1..], b, marker);
      HeadGoes(a, marker);
      HeadGoes(a + b, marker);
      AppendAssociative([a[0]], SystemPrompts(a[1..], marker), SystemPrompts(b, marker));
      AppendAssociative([a[0]], Others(a[1..], marker), Others(b, marker));
    }
  }

  lemma {:induction false} OneKind(messages: seq<Message>, marker: Text)
    ensures (forall m :: m in messages ==> IsSystemPrompt(m, marker)) ==>
      SystemPrompts(messages, marker) == messages && Others(messages, marker) == []
    ensures (forall m :: m in messages ==> !IsSystemPrompt(m, marker)) ==>
      SystemPrompts(messages, marker) == [] && Others(messages, marker) == messages
  {
    hide IsSystemPrompt;
    if messages != [] {
      OneKind(messages[1..], marker);
      assert messages == [messages[0]] + messages[1..] && messages[0] in messages;
    }
  }

  lemma FilterAgain(prompts: seq<Message>, others: seq<Message>, marker: Text)
    requires forall m :: m in prompts ==> IsSystemPrompt(m, marker)
    requires forall m :: m in others ==> !IsSystemPrompt(m, marker)
    ensures SystemPrompts(prompts + others, marker) == prompts
    ensures Others(prompts + others, marker) == others
  {
    hide IsSystemPrompt, SystemPrompts, Others;
    FilterAppend(prompts, others, marker);
    OneKind(prompts, marker);
    OneKind(others, marker);
    assert prompts + [] == prompts && [] + others == others;
  }

  lemma {:induction false} Filtered(messages: seq<Message>, marker: Text)
    ensures forall m :: m in SystemPrompts(messages, marker) ==> IsSystemPrompt(m, marker)
    ensures forall m :: m in Others(messages, marker) ==> !IsSystemPrompt(m, marker)
  {
    if messages != [] { Filtered(messages[1..], marker); }
  }

  lemma BudgetTailStays(messages: seq<Message>, keepTokens: int)
    ensures BudgetSplit(messages[BudgetSplit(messages, keepTokens)..], keepTokens) == 0
  {
    BudgetSplitIsLongest(messages, keepTokens);
  }

  /** By count, the tail is the last `keep` turns that are no system prompts, or all of them when there
      are fewer, exactly when the count is positive or there is nothing to drop: a count of 0 drops
      nothing at all. */
  lemma CountKeptIff(messages: seq<Message>, keep: nat, marker: Text)
    ensures var split, others := SplitTranscript(messages, ByCount(keep), marker), Others(messages, marker);
      && split.recent == (if keep == 0 then others else others[|others| - Min(keep, |others|)..])
      && (|split.recent| == Min(keep, |others|) <==> keep >= 1 || others == [])
      && (keep == 0 ==> forall summarize, failSafe ::
            marker != [] ==> CompactTranscript(messages, ByCount(keep), marker, summarize, failSafe) == Transcript(messages))
  {
  }

  ghost predicate Settles(window: Window, marker: Text)
    requires marker != []
  {
    forall messages :: Compacted(Compacted(messages, window, marker), window, marker) == Compacted(messages, window, marker)
  }

  lemma CompactedTwice(messages: seq<Message>, window: Window, marker: Text)
    requires marker != [] && (window.ByCount? ==> window.keepRecent >= 0)
    ensures Compacted(Compacted(messages, window, marker), window, marker) == Compacted(messages, window, marker)
  {
    match window
    case ByTokens(keep) =>
      var i := BudgetSplit(messages, keep);
      assert [] + messages[i..] == messages[i..];
      BudgetTailStays(messages, keep);
    case ByCount(keep) =>
      var split := SplitTranscript(messages, window, marker);
      Filtered(messages, marker);
      FilterAgain(split.systemPrompts, split.recent, marker);
  }

  /** Compacting by count leaves the messages in their order exactly when there is nothing to drop or every
      system prompt stands before every turn that is kept: prompts are moved to the front from wherever
      they stand. */
  lemma OrderKeptIff(messages: seq<Message>, keep: int, marker: Text)
    requires marker != []
    ensures var split := SplitTranscript(messages, ByCount(keep), marker);
      IsSubsequence(Compacted(messages, ByCount(keep), marker), messages) <==>
        split.head == [] || PromptsFirst(messages, marker, |split.recent|)
  {
    var split := SplitTranscript(messages, ByCount(keep), marker);
    var others := Others(messages, marker);
    assert split.head + split.recent == others;
    if split.head == [] {
      SubsequenceOfItself(messages);
    } else {
      assert split.recent == others[|others| - |split.recent|..];
      assert split.systemPrompts + split.recent == PromptsAndLast(messages, marker, |split.recent|);
      PromptsThenTurns(messages, marker, |split.recent|);
    }
  }

  /** The prompts set aside are the system messages that are no checkpoints. */
  lemma {:induction false} PromptsExactly(messages: seq<Message>, marker: Text, m: Message)
    ensures m in SystemPrompts(messages, marker) <==> m in messages && m.role == System && !(marker <= m.content)
    ensures m in Others(messages, marker) <==> m in messages && (m.role != System || marker <= m.content)
  {
    if messages != [] {
      PromptsExactly(messages[1..], marker, m);
      assert messages == [messages[0]] + messages[1..];
    }
  }

  /** A summary of exactly the older window stands between the prompts and the tail; nothing else is different
      from compacting without one. Without an older window nothing changes; if the summariser throws, a
      fail-safe call gives back the transcript, and any other call fails. An empty marker is refused. */
  lemma SummaryStandsBetween(messages: seq<Message>, window: Window, marker: Text,
                             summarize: seq<Message> -> Option<Message>, failSafe: bool)
    ensures var outcome := CompactTranscript(messages, window, marker, Some(summarize), failSafe);
      var split := SplitTranscript(messages, window, marker);
      && (marker == [] <==> outcome == EmptyMarker)
      && (marker != [] && split.head == [] ==> outcome == Transcript(messages) && Compacted(messages, window, marker) == messages)
      && (marker != [] && split.head != [] ==>
            if summarize(split.head).None? then outcome == if failSafe then Transcript(messages) else SummarizerFailed
            else
              && outcome.Transcript? && |outcome.messages| == |split.systemPrompts| + 1 + |split.recent|
              && outcome.messages[|split.systemPrompts|] == summarize(split.head).value
              && outcome.messages[..|split.systemPrompts|] + outcome.messages[|split.systemPrompts| + 1..]
                   == Compacted(messages, window, marker))
  {
    hide SplitTranscript;
    var split := SplitTranscript(messages, window, marker);
    if marker != [] && split.head != [] && summarize(split.head).Some? {
      var all := split.systemPrompts + [summarize(split.head).value] + split.recent;
      assert all[..|split.systemPrompts|] == split.systemPrompts && all[|split.systemPrompts| + 1..] == split.recent;
    }
  }

  /** Compacting without a summariser settles after one pass, by tokens always, by count exactly when
      the count is not negative: a negative count drops that many turns from the front every time. */
  lemma SettlesIffNotNegative(window: Window, marker: Text)
    requires marker != []
    ensures Settles(window, marker) <==> window.ByTokens? || window.keepRecent >= 0
  {
    if window.ByTokens? || window.keepRecent >= 0 {
      forall messages
        ensures Compacted(Compacted(messages, window, marker), window, marker) == Compacted(messages, window, marker)
      {
        CompactedTwice(messages, window, marker);
      }
    } else {
      NegativeCountKeepsDropping(window.keepRecent, marker);
    }
  }

  function Turns(n: nat): (r: seq<Message>)
    ensures |r| == n
  {
    seq(n, _ => Message(User, []))
  }

  lemma {:induction false} TurnsAreOthers(n: nat, marker: Text)
    ensures SystemPrompts(Turns(n), marker) == [] && Others(Turns(n), marker) == Turns(n)
  {
    if n > 0 {
      assert Turns(n)[1..] == Turns(n - 1) && Turns(n) == [Message(User, [])] + Turns(n - 1);
      TurnsAreOthers(n - 1, marker);
    }
  }

  lemma NegativeCountKeepsDropping(keep: int, marker: Text)
    requires marker != [] && keep < 0
    ensures var messages := Turns(1 - keep);
      Compacted(Compacted(messages, ByCount(keep), marker), ByCount(keep), marker) != Compacted(messages, ByCount(keep), marker)
  {
    TurnsAreOthers(1 - keep, marker);
    TurnsAreOthers(1, marker);
    assert [] + Turns(1 - keep)[-keep..] == Turns(1);
    assert Turns(1)[1..] == [];
    assert [] + Turns(1)[1..] == [];
  }

  // ---- Checkpoints --------------------------------------------------------------------------------

  datatype Include = After | From

  /** The turns behind the last marked one, or from it on; all turns when none is marked. */
  function FromLatest(messages: seq<Message>, marker: Text, mode: Include): seq<Message> {
    if messages == [] || !(exists i :: 0 <= i < |messages| && StartsWith(messages[i].content, marker)) then messages
    else if StartsWith(messages[0].content, marker)
            && !(exists i :: 0 < i < |messages| && StartsWith(messages[i].content, marker))
      then if mode.From? then messages else messages[1..]
    else FromLatest(messages[1..], marker, mode)
  }

  /** The message at `i` is marked, and none behind it is. */
  ghost predicate IsLatest(messages: seq<Message>, marker: Text, i: int) {
    && 0 <= i < |messages| && marker <= messages[i].content
    && forall k :: i < k < |messages| ==> !(marker <= messages[k].content)
  }

  lemma NoneMarked(messages: seq<Message>, marker: Text, mode: Include)
    requires forall k :: 0 <= k < |messages| ==> !StartsWith(messages[k].content, marker)
    ensures FromLatest(messages, marker, mode) == messages
  {
  }

  lemma LatestIsOne(messages: seq<Message>, marker: Text, i: int, j: int)
    requires IsLatest(messages, marker, i) && IsLatest(messages, marker, j)
    ensures i == j
  {
  }

  method FilterFromLatestCheckpoint(messages: seq<Message>, marker: Text, mode: Include) returns (r: seq<Message>)
    ensures r == FromLatest(messages, marker, mode)
    ensures (forall k :: 0 <= k < |messages| ==> !(marker <= messages[k].content)) ==> r == messages
    ensures forall i :: IsLatest(messages, marker, i) ==> r == messages[if mode == From then i else i + 1..]
  {
    hide FromLatest;
    var offset := if mode.From? then 0 else 1;
    var i := |messages| - 1;
    while i >= 0
      invariant -1 <= i < |messages|
      invariant forall k :: i < k < |messages| ==> !StartsWith(messages[k].content, marker)
    {
      if StartsWith(messages[i].content, marker) {
        LatestIs(messages, marker, mode, i);
        assert IsLatest(messages, marker, i);
        forall j | IsLatest(messages, marker, j) ensures j == i { LatestIsOne(messages, marker, i, j); }
        return messages[i + offset..];
      }
      i := i - 1;
    }
    NoneMarked(messages, marker, mode);
    return messages;
  }

  lemma {:induction false} LatestIs(messages: seq<Message>, marker: Text, mode: Include, i: nat)
    requires i < |messages| && StartsWith(messages[i].content, marker)
    requires forall k :: i < k < |messages| ==> !StartsWith(messages[k].content, marker)
    ensures FromLatest(messages, marker, mode) == messages[if mode.From? then i else i + 1..]
  {
    if i > 0 {
      assert messages[1..][i - 1] == messages[i];
      assert forall k :: i - 1 < k < |messages| - 1 ==> messages[1..][k] == messages[k + 1];
      LatestIs(messages[1..], marker, mode, i - 1);
    }
  }

  /** Filtering again changes nothing, whether or not the checkpoint itself is kept. */
  lemma {:induction false} FilterSettles(messages: seq<Message>, marker: Text, mode: Include)
    ensures var once := FromLatest(messages, marker, mode);
      FromLatest(once, marker, mode) == once
  {
    if i :| 0 <= i < |messages| && StartsWith(messages[i].content, marker) {
      if StartsWith(messages[0].content, marker)
         && !(exists k :: 0 < k < |messages| && StartsWith(messages[k].content, marker))
      {
        assert forall k :: 0 <= k < |messages| - 1 ==> messages[1..][k] == messages[k + 1];
      } else {
        FilterSettles(messages[1..], marker, mode);
      }
    }
  }
}
