/** The stream translator: messages become session updates, sent one at a time until the stream ends,
    the caller aborts, or ten sends in a row have failed. */
module StreamTranslator {
  import opened Sequences

  const MAX_CONSECUTIVE_SEND_FAILURES := 10

  datatype ContentBlock = TextBlock(text: string) | ToolUse(id: string, name: string) | OtherBlock

  datatype CallStatus = InProgress | Completed | Failed

  datatype Message =
    | Assistant(content: seq<ContentBlock>)
    | Thinking(text: string)
    | ToolCall(callId: string, status: CallStatus, result: Option<string>)
    | NoEquivalent

  datatype Update =
    | MessageChunk(text: string)
    | ThoughtChunk(text: string)
    | ToolCallStarted(id: string, title: string)
    | ToolCallUpdate(id: string, status: CallStatus, content: Option<string>)

  // ---- What the stream says -----------------------------------------------------------------------

  function BlockUpdate(block: ContentBlock): seq<Update> {
    match block
    case TextBlock(text) => [MessageChunk(text)]
    case ToolUse(id, name) => [ToolCallStarted(id, name)]
    case OtherBlock => []
  }

  function BlockUpdates(blocks: seq<ContentBlock>): seq<Update> {
    if blocks == [] then [] else BlockUpdate(blocks[0]) + BlockUpdates(blocks[1..])
  }

  function Updates(m: Message, suppressThinking: bool): seq<Update> {
    match m
    case Assistant(content) => BlockUpdates(content)
    case Thinking(text) => if suppressThinking then [] else [ThoughtChunk(text)]
    case ToolCall(callId, status, result) => [ToolCallUpdate(callId, status, result)]
    case NoEquivalent => []
  }

  function AllUpdates(messages: seq<Message>, suppressThinking: bool): seq<Update> {
    if messages == [] then []
    else Updates(messages[0], suppressThinking) + AllUpdates(messages[1..], suppressThinking)
  }

  /** Every text block, tool use, thought and tool call of the messages gives its update, thoughts unless they
      are suppressed, and nothing else gives one. */
  ghost predicate Says(messages: seq<Message>, suppressThinking: bool, u: Update) {
    match u
    case MessageChunk(text) => exists m :: m in messages && m.Assistant? && TextBlock(text) in m.content
    case ToolCallStarted(id, title) => exists m :: m in messages && m.Assistant? && ToolUse(id, title) in m.content
    case ThoughtChunk(text) => !suppressThinking && Thinking(text) in messages
    case ToolCallUpdate(id, status, content) => ToolCall(id, status, content) in messages
  }

  lemma {:induction false} BlockUpdatesExactly(blocks: seq<ContentBlock>, u: Update)
    ensures u in BlockUpdates(blocks) <==>
      (u.MessageChunk? && TextBlock(u.text) in blocks) || (u.ToolCallStarted? && ToolUse(u.id, u.title) in blocks)
  {
    if blocks != [] {
      BlockUpdatesExactly(blocks[1..], u);
      assert blocks == [blocks[0]] + blocks[1..];
    }
  }

  lemma {:induction false} UpdatesExactly(messages: seq<Message>, suppressThinking: bool, u: Update)
    ensures u in AllUpdates(messages, suppressThinking) <==> Says(messages, suppressThinking, u)
  {
    if messages != [] {
      var m, rest := messages[0], messages[1..];
      UpdatesExactly(rest, suppressThinking, u);
      assert messages == [m] + rest;
      assert forall k :: k in messages <==> k == m || k in rest;
      if m.Assistant? { BlockUpdatesExactly(m.content, u); }
    }
  }

  // ---- What a failing connection does to it -------------------------------------------------------

  /** Which of the attempts fail, by their number. */
  type Failures = nat -> bool

  /** How many of the first `n` attempts failed at the end without a success behind them. */
  function Streak(fails: Failures, n: nat): (k: nat)
    ensures k <= n
  {
    if n == 0 || !fails(n - 1) then 0 else 1 + Streak(fails, n - 1)
  }

  /** The first `n` attempts hold no ten failures in a row. */
  ghost predicate Bearable(fails: Failures, n: nat) {
    forall k :: 0 <= k <= n ==> Streak(fails, k) < 10
  }

  /** How many of `total` updates are attempted: all, or those up to the tenth failure in a row. */
  ghost predicate StopsAt(fails: Failures, total: nat, n: nat) {
    && n <= total
    && (n < total ==> Streak(fails, n) == 10)
    && (n > 0 ==> Bearable(fails, n - 1))
  }

  class SafeSendState {
    const fails: Failures
    var consecutiveFailures: nat
    var bailed: bool
    var attempts: seq<Update>

    /** The counter is the failure streak of the attempts so far; the state has bailed when the last
        attempt was the tenth failure in a row, which no earlier attempt was. */
    ghost predicate Valid()
      reads this
    {
      && consecutiveFailures == Streak(fails, |attempts|)
      && (bailed <==> consecutiveFailures >= MAX_CONSECUTIVE_SEND_FAILURES)
      && (|attempts| > 0 ==> Bearable(fails, |attempts| - 1))
    }

    /** The attempts are the updates said so far, or a prefix of them that ended in bailing. */
    ghost predicate Sent(said: seq<Update>)
      reads this
    {
      Valid() && attempts <= said && (!bailed ==> attempts == said)
    }

    /** Where sending stands is where it stops. */
    lemma Stopped(said: seq<Update>)
      requires Sent(said)
      ensures attempts <= said && StopsAt(fails, |said|, |attempts|)
      ensures bailed ==> Streak(fails, |attempts|) == MAX_CONSECUTIVE_SEND_FAILURES
    {
      StreakAtBail(fails, |attempts|);
    }

    constructor (fails: Failures)
      ensures Sent([]) && this.fails == fails && attempts == [] && !bailed
    {
      this.fails := fails;
      consecutiveFailures, bailed, attempts := 0, false, [];
    }

    method SafeNotify(update: Update, ghost said: seq<Update>)
      requires Sent(said)
      modifies this
      ensures Sent(said + [update])
      ensures old(bailed) ==> bailed && attempts == old(attempts)
    {
      if bailed { return; }
      var failed := fails(|attempts|);
      attempts := attempts + [update];
      if !failed {
        consecutiveFailures := 0;
      } else {
        consecutiveFailures := consecutiveFailures + 1;
        if consecutiveFailures >= MAX_CONSECUTIVE_SEND_FAILURES {
          bailed := true;
        }
      }
    }

    method HandleBlock(block: ContentBlock, ghost said: seq<Update>)
      requires Sent(said)
      modifies this
      ensures Sent(said + BlockUpdate(block))
    {
      assert said + [] == said;
      match block {
        case TextBlock(text) => SafeNotify(MessageChunk(text), said);
        case ToolUse(id, name) => SafeNotify(ToolCallStarted(id, name), said);
        case OtherBlock =>
      }
    }

    method HandleAssistant(content: seq<ContentBlock>, ghost said: seq<Update>)
      requires Sent(said)
      modifies this
      ensures Sent(said + BlockUpdates(content))
    {
      hide Valid;
      ghost var done: seq<Update> := [];
      assert said + done == said;
      for i := 0 to |content|
        invariant Sent(said + done) && BlockUpdates(content) == done + BlockUpdates(content[i..])
      {
        assert content[i..][1..] == content[i + 1..];
        HandleBlock(content[i], said + done);
        AppendAssociative(said, done, BlockUpdate(content[i]));
        AppendAssociative(done, BlockUpdate(content[i]), BlockUpdates(content[i + 1..]));
        done := done + BlockUpdate(content[i]);
      }
      assert done + [] == done;
    }

    method DispatchMessage(m: Message, suppressThinking: bool, ghost said: seq<Update>)
      requires Sent(said)
      modifies this
      ensures Sent(said + Updates(m, suppressThinking))
    {
      assert said + [] == said;
      match m {
        case Assistant(content) => HandleAssistant(content, said);
        case Thinking(text) => if !suppressThinking { SafeNotify(ThoughtChunk(text), said); }
        case ToolCall(callId, status, result) => SafeNotify(ToolCallUpdate(callId, status, result), said);
        case NoEquivalent =>
      }
    }
  }

  lemma {:induction false} AllUpdatesSplit(messages: seq<Message>, k: nat, suppressThinking: bool)
    requires k < |messages|
    ensures AllUpdates(messages[..k + 1], suppressThinking)
         == AllUpdates(messages[..k], suppressThinking) + Updates(messages[k], suppressThinking)
  {
    var one := messages[..k + 1];
    if k == 0 {
      assert one == [messages[0]] && one[1..] == [] && messages[..0] == [];
      assert [] + Updates(messages[0], suppressThinking) == Updates(messages[0], suppressThinking) + [];
    } else {
      assert one[1..] == messages[1..][..k] && messages[..k][1..] == messages[1..][..k - 1];
      AllUpdatesSplit(messages[1..], k - 1, suppressThinking);
      AppendAssociative(Updates(messages[0], suppressThinking), AllUpdates(messages[1..][..k - 1], suppressThinking),
                        Updates(messages[k], suppressThinking));
    }
  }

  lemma {:induction false} AllUpdatesGrow(messages: seq<Message>, i: nat, j: nat, suppressThinking: bool)
    requires i <= j <= |messages|
    ensures AllUpdates(messages[..i], suppressThinking) <= AllUpdates(messages[..j], suppressThinking)
    decreases j - i
  {
    if i < j {
      AllUpdatesGrow(messages, i, j - 1, suppressThinking);
      AllUpdatesSplit(messages, j - 1, suppressThinking);
    }
  }

  /** The updates attempted are those of the first `taken` messages in order, up to the tenth failure in a
      row, which is the last attempt; the stream is left early only at an abort seen in front of the next
      message, or for those failures. */
  ghost predicate Translates(messages: seq<Message>, suppressThinking: bool, aborted: nat -> bool, fails: Failures,
                             attempts: seq<Update>, taken: nat)
  {
    && taken <= |messages|
    && (forall k :: 0 <= k < taken ==> !aborted(k))
    && var said := AllUpdates(messages[..taken], suppressThinking);
    && attempts <= said && StopsAt(fails, |said|, |attempts|)
    && (taken < |messages| ==> aborted(taken) || Streak(fails, |attempts|) == 10)
  }

  /** The messages, the aborts and the failures leave no choice what is attempted. */
  lemma TranslationIsUnique(messages: seq<Message>, suppressThinking: bool, aborted: nat -> bool, fails: Failures,
                            a: seq<Update>, i: nat, b: seq<Update>, j: nat)
    requires Translates(messages, suppressThinking, aborted, fails, a, i)
    requires Translates(messages, suppressThinking, aborted, fails, b, j)
    ensures a == b
  {
    var most := AllUpdates(messages[..Max(i, j)], suppressThinking);
    AllUpdatesGrow(messages, i, Max(i, j), suppressThinking);
    AllUpdatesGrow(messages, j, Max(i, j), suppressThinking);
    StopIsUnique(fails, |most|, |a|, |b|);
  }

  /** The whole stream. */
  method TranslateStream(messages: seq<Message>, suppressThinking: bool, aborted: nat -> bool, fails: Failures)
    returns (attempts: seq<Update>)
    ensures exists taken: nat :: Translates(messages, suppressThinking, aborted, fails, attempts, taken)
  {
    var state := new SafeSendState(fails);
    for i := 0 to |messages|
      invariant state.fails == fails
      invariant state.Sent(AllUpdates(messages[..i], suppressThinking))
      invariant forall k :: 0 <= k < i ==> !aborted(k)
    {
      if aborted(i) || state.bailed {
        state.Stopped(AllUpdates(messages[..i], suppressThinking));
        assert Translates(messages, suppressThinking, aborted, fails, state.attempts, i);
        return state.attempts;
      }
      AllUpdatesSplit(messages, i, suppressThinking);
      state.DispatchMessage(messages[i], suppressThinking, AllUpdates(messages[..i], suppressThinking));
    }
    state.Stopped(AllUpdates(messages[..|messages|], suppressThinking));
    assert Translates(messages, suppressThinking, aborted, fails, state.attempts, |messages|);
    return state.attempts;
  }

  /** A streak that was bearable one attempt ago is at most ten. */
  lemma StreakAtBail(fails: Failures, n: nat)
    requires n > 0 ==> Bearable(fails, n - 1)
    ensures Streak(fails, n) <= MAX_CONSECUTIVE_SEND_FAILURES
  {
    if n > 0 { assert Streak(fails, n - 1) < MAX_CONSECUTIVE_SEND_FAILURES; }
  }

  /** The number of attempts is determined by the failures alone. */
  lemma StopIsUnique(fails: Failures, total: nat, n: nat, m: nat)
    requires StopsAt(fails, total, n) && StopsAt(fails, total, m)
    ensures n == m
  {
  }

  /** The streak counts exactly the failures behind the last success. */
  lemma {:induction false} StreakIsTrailing(fails: Failures, n: nat)
    ensures forall k :: n - Streak(fails, n) <= k < n ==> fails(k)
    ensures Streak(fails, n) < n ==> !fails(n - Streak(fails, n) - 1)
  {
    if n > 0 && fails(n - 1) { StreakIsTrailing(fails, n - 1); }
  }
}
