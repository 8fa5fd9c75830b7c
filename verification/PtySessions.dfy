/** Pseudo-terminal sessions: a tail-capped output buffer drained window by window, writes that take
    turns on each session, and a ceiling on live sessions. */
module PtySessions {
  import opened Sequences
  import opened JsText

  // ---- The tail cap -------------------------------------------------------------------------------

  /** The marker put in front of a cut buffer. */
  const MARKER: Text := [0x2026] + Ascii("(truncated)\n")

  /** `slice(-n)`: the last `n` units, but everything for 0, because minus zero is zero. */
  function SliceEnd(s: Text, n: nat): Text {
    if n == 0 || n >= |s| then s else s[|s| - n..]
  }

  function CapTail(buf: Text, max: nat): Text {
    if |buf| > max then MARKER + SliceEnd(buf, max) else buf
  }

  lemma MarkerLength()
    ensures |MARKER| == 13
  {
  }

  lemma TailOfTail(front: Text, s: Text, d: Text, n: nat)
    requires 1 <= n < |s|
    ensures SliceEnd(front + SliceEnd(s, n) + d, n) == SliceEnd(s + d, n)
  {
  }

  /** Capping chunk by chunk is capping everything at once. */
  lemma ChunkwiseCap(s: Text, d: Text, max: nat)
    requires max >= 1
    ensures CapTail(CapTail(s, max) + d, max) == CapTail(s + d, max)
  {
    if |s| > max { TailOfTail(MARKER, s, d, max); }
  }

  ghost predicate CapsChunkwise(max: nat) {
    forall s, d :: CapTail(CapTail(s, max) + d, max) == CapTail(s + d, max)
  }

  /** A cap of 0 keeps everything and puts one marker more in front at every chunk. */
  lemma CapsChunkwiseIffPositive(max: nat)
    ensures CapsChunkwise(max) <==> max >= 1
  {
    if max >= 1 {
      forall s, d ensures CapTail(CapTail(s, max) + d, max) == CapTail(s + d, max) { ChunkwiseCap(s, d, max); }
    } else {
      MarkerLength();
      var s: Text, d: Text := [SPACE], [];
      assert |CapTail(CapTail(s, max) + d, max)| == 27 && |CapTail(s + d, max)| == 14;
    }
  }

  /** Draining with a cap of its own: the result is the data capped once, at the smaller of the two,
      exactly when nothing was cut before, or the drain's cap is at most the buffer's, or it has room
      for the buffer and its marker. In between, the marker itself is cut in two. */
  lemma DrainCapIff(data: Text, kept: nat, drain: nat)
    requires kept >= 1 && drain >= 1
    ensures CapTail(CapTail(data, kept), drain) == CapTail(data, Min(kept, drain)) <==>
      |data| <= kept || drain <= kept || kept + |MARKER| <= drain
  {
    MarkerLength();
    if |data| > kept {
      CutBufferDrained(data, kept, drain);
    } else if |data| > drain {
      assert CapTail(CapTail(data, kept), drain) == CapTail(data, drain);
    }
  }

  lemma CutBufferDrained(data: Text, kept: nat, drain: nat)
    requires 1 <= kept < |data| && drain >= 1
    ensures drain <= kept ==> CapTail(CapTail(data, kept), drain) == CapTail(data, drain)
    ensures kept < drain < kept + 13 ==> |CapTail(CapTail(data, kept), drain)| == 13 + drain
    ensures kept + 13 <= drain ==> CapTail(CapTail(data, kept), drain) == CapTail(data, kept)
    ensures |CapTail(data, kept)| == 13 + kept
  {
    MarkerLength();
    if drain <= kept {
      assert SliceEnd(MARKER + SliceEnd(data, kept), drain) == SliceEnd(data, drain);
    }
  }

  // ---- One session as a step protocol -------------------------------------------------------------

  /** One `writeStdin` call: what to type and how much output to give back. */
  datatype Call = Call(chars: Text, maxBytes: nat)

  /** What one drain gave back: to a write call, or to the start call when there is none. */
  datatype Output = Output(to: Option<Call>, text: Text)

  datatype State = State(
    cap: nat,                // of the buffer, and of the start call's own drain
    pending: Text,
    alive: bool,
    starting: bool,          // the start call still waits for its output window to end
    chain: seq<Call>,        // accepted calls whose turn has not come
    active: Option<Call>,    // the call that waits for its output window to end
    typed: seq<Text>,        // what was written to the terminal
    outputs: seq<Output>,    // history: what the drains gave back
    accepted: seq<Call>,     // history: calls in the order they were made
    begun: seq<Call>,        // history: calls whose turn came while the process lived
    refused: seq<Call>,      // history: calls whose turn came after its death
    since: Text,             // history: what the process emitted since the last drain
    windows: seq<Text>)      // history: what it emitted between drains

  datatype Event =
    | Data(text: Text)
    | Death
    | Submit(call: Call)
    | Begin
    | Finish
    | FirstWindow

  function Init(cap: nat): State {
    State(cap, [], true, true, [], None, [], [], [], [], [], [], [])
  }

  function Drain(s: State, to: Option<Call>, max: nat): State {
    s.(pending := [], outputs := s.outputs + [Output(to, CapTail(s.pending, max))],
       windows := s.windows + [s.since], since := [])
  }

  predicate Enabled(s: State, e: Event) {
    match e
    case Submit(_) => s.alive
    case Begin => s.active.None? && s.chain != []
    case Finish => s.active.Some?
    case FirstWindow => s.starting
    case _ => true
  }

  function Typed(chars: Text): seq<Text> { if chars == [] then [] else [chars] }

  /** One step; an event that cannot happen leaves the session unchanged. */
  function Step(s: State, e: Event): State {
    if !Enabled(s, e) then s
    else match e
      case Data(text) => s.(pending := CapTail(s.pending + text, s.cap), since := s.since + text)
      case Death => s.(alive := false)
      case Submit(call) => s.(chain := s.chain + [call], accepted := s.accepted + [call])
      case Begin =>
        var call := s.chain[0];
        if !s.alive then s.(chain := s.chain[1..], refused := s.refused + [call])
        else s.(chain := s.chain[1..], active := Some(call), typed := s.typed + Typed(call.chars),
                begun := s.begun + [call])
      case Finish => Drain(s.(active := None), s.active, s.active.value.maxBytes)
      case FirstWindow => Drain(s.(starting := false), None, s.cap)
  }

  function Run(s: State, events: seq<Event>): State
    decreases |events|
  {
    if events == [] then s else Run(Step(s, events[0]), events[1..])
  }

  function Emitted(events: seq<Event>): Text {
    if events == [] then []
    else (if events[0].Data? then events[0].text else []) + Emitted(events[1..])
  }

  function Concat(parts: seq<Text>): Text {
    if parts == [] then [] else Concat(parts[..|parts| - 1]) + parts[|parts| - 1]
  }

  function AllTyped(calls: seq<Call>): seq<Text> {
    if calls == [] then [] else AllTyped(calls[..|calls| - 1]) + Typed(calls[|calls| - 1].chars)
  }

  // ---- What the drains give back ------------------------------------------------------------------

  /** The cap a drain was made with. */
  function CapOf(cap: nat, o: Output): nat { if o.to.Some? then o.to.value.maxBytes else cap }

  /** The outputs joined. */
  function Given(outputs: seq<Output>): Text {
    if outputs == [] then [] else Given(outputs[..|outputs| - 1]) + outputs[|outputs| - 1].text
  }

  /** The write calls that got an output, in order. */
  function Served(outputs: seq<Output>): seq<Call> {
    if outputs == [] then []
    else Served(outputs[..|outputs| - 1]) + Waiting(outputs[|outputs| - 1].to)
  }

  function Waiting(call: Option<Call>): seq<Call> { if call.Some? then [call.value] else [] }

  /** How many outputs went to the start call. */
  function Starts(outputs: seq<Output>): nat {
    if outputs == [] then 0
    else Starts(outputs[..|outputs| - 1]) + if outputs[|outputs| - 1].to.None? then 1 else 0
  }

  /** Each output is the window it closed, capped by the buffer and then by the drain. */
  ghost predicate OutputsAreWindows(cap: nat, outputs: seq<Output>, windows: seq<Text>) {
    && |outputs| == |windows|
    && forall k :: 0 <= k < |outputs| ==> outputs[k].text == CapTail(CapTail(windows[k], cap), CapOf(cap, outputs[k]))
  }

  ghost predicate Inv(s: State) {
    && s.cap >= 1
    && s.pending == CapTail(s.since, s.cap)
    && OutputsAreWindows(s.cap, s.outputs, s.windows)
    && Served(s.outputs) + Waiting(s.active) == s.begun
    && Starts(s.outputs) == (if s.starting then 0 else 1)
    && s.accepted == s.begun + s.refused + s.chain
    && s.typed == AllTyped(s.begun)
    && (s.refused != [] ==> !s.alive)
  }

  lemma BeginInv(s: State)
    requires Inv(s) && Enabled(s, Begin)
    ensures Inv(Step(s, Begin))
  {
    hide CapTail;
    var call := s.chain[0];
    ShiftBoundary(s.begun + s.refused, s.chain);
    if s.alive {
      assert s.refused == [] && s.begun + [] == s.begun && s.begun + [call] + [] == s.begun + [call];
      assert (s.begun + [call])[..|s.begun|] == s.begun;
      assert Served(s.outputs) + [] == Served(s.outputs);
    } else {
      AppendAssociative(s.begun, s.refused, [call]);
    }
  }

  lemma DrainInv(s: State, to: Option<Call>, max: nat)
    requires s.pending == CapTail(s.since, s.cap) && OutputsAreWindows(s.cap, s.outputs, s.windows)
    requires max == if to.Some? then to.value.maxBytes else s.cap
    ensures var t := Drain(s, to, max);
      && t.pending == CapTail(t.since, t.cap) && OutputsAreWindows(t.cap, t.outputs, t.windows)
      && Served(t.outputs) == Served(s.outputs) + Waiting(to)
      && Starts(t.outputs) == Starts(s.outputs) + if to.None? then 1 else 0
  {
    var t := Drain(s, to, max);
    NothingToCap(s.cap);
    hide CapTail;
    assert t.outputs[..|s.outputs|] == s.outputs;
  }

  lemma StepInv(s: State, e: Event)
    requires Inv(s)
    ensures Inv(Step(s, e))
  {
    hide OutputsAreWindows, CapTail, AllTyped, Served, Starts;
    if Enabled(s, e) {
      match e
      case Data(text) => ChunkwiseCap(s.since, text, s.cap);
      case Submit(call) => AppendAssociative(s.begun + s.refused, s.chain, [call]);
      case Begin => BeginInv(s);
      case Finish =>
        DrainInv(s.(active := None), s.active, s.active.value.maxBytes);
        assert Served(s.outputs) + Waiting(s.active) + [] == Served(s.outputs) + Waiting(s.active);
      case FirstWindow =>
        DrainInv(s.(starting := false), None, s.cap);
        assert Served(s.outputs) + [] == Served(s.outputs);
      case _ =>
    }
  }

  /** What one step can do: histories grow at the end, nothing is typed into a dead session, and a
      dead session stays dead. */
  ghost predicate Extends(s: State, t: State) {
    && s.accepted <= t.accepted && s.begun <= t.begun && s.typed <= t.typed
    && s.outputs <= t.outputs && s.windows <= t.windows
    && s.cap == t.cap && (!s.starting ==> !t.starting)
    && (!s.alive ==> !t.alive && t.typed == s.typed && t.begun == s.begun && t.accepted == s.accepted)
  }

  lemma StepExtends(s: State, e: Event)
    ensures Extends(s, Step(s, e))
  {
  }

  lemma ExtendsReflexive(s: State)
    ensures Extends(s, s)
  {
  }

  lemma ExtendsTransitive(s: State, t: State, u: State)
    requires Extends(s, t) && Extends(t, u)
    ensures Extends(s, u)
  {
  }

  lemma {:induction false} RunInv(s: State, events: seq<Event>)
    requires Inv(s)
    ensures Inv(Run(s, events)) && Extends(s, Run(s, events))
    decreases |events|
  {
    hide Inv, Step, Extends;
    if events == [] {
      ExtendsReflexive(s);
    } else {
      var t := Step(s, events[0]);
      StepInv(s, events[0]);
      StepExtends(s, events[0]);
      RunInv(t, events[1..]);
      ExtendsTransitive(s, t, Run(t, events[1..]));
    }
  }

  lemma StepKeepsData(s: State, e: Event)
    ensures var text := if e.Data? then e.text else [];
      Concat(Step(s, e).windows) + Step(s, e).since == Concat(s.windows) + s.since + text
  {
    if Enabled(s, e) && (e.Finish? || e.FirstWindow?) {
      assert (s.windows + [s.since])[..|s.windows|] == s.windows;
    }
  }

  lemma {:induction false} RunKeepsData(s: State, events: seq<Event>)
    ensures Concat(Run(s, events).windows) + Run(s, events).since == Concat(s.windows) + s.since + Emitted(events)
    decreases |events|
  {
    if events == [] {
      assert Concat(s.windows) + s.since + [] == Concat(s.windows) + s.since;
    } else {
      StepKeepsData(s, events[0]);
      RunKeepsData(Step(s, events[0]), events[1..]);
      var text := if events[0].Data? then events[0].text else [];
      AppendAssociative(Concat(s.windows) + s.since, text, Emitted(events[1..]));
    }
  }

  lemma NothingToCap(max: nat)
    ensures CapTail([], max) == []
  {
  }

  lemma InitInv(cap: nat)
    requires cap >= 1
    ensures Inv(Init(cap))
  {
    NothingToCap(cap);
  }

  /** Over any run: the buffer holds the capped output since the last drain; the k-th drain gave back the
      k-th window, capped by the buffer and by its own cap; and the windows followed by what came since
      are everything the process emitted. */
  lemma OutputIsPartitioned(cap: nat, events: seq<Event>)
    requires cap >= 1
    ensures var s := Run(Init(cap), events);
      && s.pending == CapTail(s.since, cap)
      && OutputsAreWindows(cap, s.outputs, s.windows)
      && Concat(s.windows) + s.since == Emitted(events)
  {
    hide Step, Run, CapTail, Emitted, OutputsAreWindows;
    InitInv(cap);
    RunInv(Init(cap), events);
    RunKeepsData(Init(cap), events);
    assert [] + [] + Emitted(events) == Emitted(events);
  }

  /** No window, nor what came since the last drain, is longer than the caps that apply to it. */
  ghost predicate Uncapped(s: State) {
    && |s.since| <= s.cap && |s.outputs| == |s.windows|
    && forall k :: 0 <= k < |s.windows| ==> |s.windows[k]| <= s.cap && |s.windows[k]| <= CapOf(s.cap, s.outputs[k])
  }

  lemma {:induction false} FittingOutputs(cap: nat, outputs: seq<Output>, windows: seq<Text>)
    requires OutputsAreWindows(cap, outputs, windows)
    requires forall k :: 0 <= k < |windows| ==> |windows[k]| <= cap && |windows[k]| <= CapOf(cap, outputs[k])
    ensures Given(outputs) == Concat(windows)
    decreases |outputs|
  {
    if outputs != [] { FittingOutputs(cap, outputs[..|outputs| - 1], windows[..|windows| - 1]); }
  }

  /** Then what the callers were given, followed by what is pending, is everything the process emitted:
      the drains lose and repeat nothing. */
  lemma UncappedDrainsLoseNothing(cap: nat, events: seq<Event>)
    requires cap >= 1 && Uncapped(Run(Init(cap), events))
    ensures var s := Run(Init(cap), events); Given(s.outputs) + s.pending == Emitted(events)
  {
    var s := Run(Init(cap), events);
    OutputIsPartitioned(cap, events);
    InitInv(cap);
    RunInv(Init(cap), events);
    FittingOutputs(cap, s.outputs, s.windows);
  }

  /** What the calls ask to be typed, one text each. */
  function AskedFor(calls: seq<Call>): seq<Text> {
    if calls == [] then [] else [calls[0].chars] + AskedFor(calls[1..])
  }

  /** The texts that are not empty. */
  function NotEmpty(texts: seq<Text>): seq<Text> {
    if texts == [] then [] else if |texts[0]| == 0 then NotEmpty(texts[1..]) else [texts[0]] + NotEmpty(texts[1..])
  }

  lemma {:induction false} AskedForSnoc(calls: seq<Call>, call: Call)
    ensures NotEmpty(AskedFor(calls + [call])) == NotEmpty(AskedFor(calls)) + NotEmpty([call.chars])
  {
    if calls == [] {
      assert [call][1..] == [] && calls + [call] == [call] && [call.chars] + [] == [call.chars];
      assert NotEmpty(AskedFor(calls)) == [];
    } else {
      assert (calls + [call])[1..] == calls[1..] + [call];
      AskedForSnoc(calls[1..], call);
      var head, rest := calls[0].chars, AskedFor(calls[1..]);
      assert ([head] + rest)[1..] == rest;
      var longer := AskedFor(calls[1..] + [call]);
      assert ([head] + longer)[1..] == longer;
    }
  }

  lemma {:induction false} TypedIsAskedFor(calls: seq<Call>)
    ensures AllTyped(calls) == NotEmpty(AskedFor(calls))
    decreases |calls|
  {
    if calls != [] {
      var front, last := calls[..|calls| - 1], calls[|calls| - 1];
      assert calls == front + [last];
      TypedIsAskedFor(front);
      AskedForSnoc(front, last);
      assert [last.chars][1..] == [];
    }
  }

  /** Over any run the calls take their turns in the order they were made: what was typed is what the
      first calls made asked for, in that order, calls for nothing left out, and nothing is typed after the
      process died. */
  lemma WritesTakeTurns(cap: nat, events: seq<Event>, more: seq<Event>)
    requires cap >= 1
    ensures var s := Run(Init(cap), events);
      && s.begun <= s.accepted && s.typed == NotEmpty(AskedFor(s.begun))
      && s.begun + s.refused + s.chain == s.accepted
      && (s.alive ==> s.refused == [])
      && (!s.alive ==> Run(s, more).typed == s.typed && !Run(s, more).alive)
  {
    InitInv(cap);
    RunInv(Init(cap), events);
    RunInv(Run(Init(cap), events), more);
    TypedIsAskedFor(Run(Init(cap), events).begun);
  }

  /** Over any run the outputs go to the calls in the order their turns came, one each; only the latest
      call begun can still wait for its own, and the start call gets one output at most. So no call
      begins while another waits. */
  lemma OneAtATime(cap: nat, events: seq<Event>)
    requires cap >= 1
    ensures var s := Run(Init(cap), events);
      && Served(s.outputs) + Waiting(s.active) == s.begun
      && Starts(s.outputs) == (if s.starting then 0 else 1)
      && |s.outputs| == |s.begun| + Starts(s.outputs) - |Waiting(s.active)|
  {
    InitInv(cap);
    RunInv(Init(cap), events);
    ServedAndStarts(Run(Init(cap), events).outputs);
  }

  lemma {:induction false} ServedAndStarts(outputs: seq<Output>)
    ensures |Served(outputs)| + Starts(outputs) == |outputs|
    decreases |outputs|
  {
    if outputs != [] { ServedAndStarts(outputs[..|outputs| - 1]); }
  }

  // ---- When a call keeps its own window -----------------------------------------------------------

  ghost predicate NoFinish(events: seq<Event>) { forall e :: e in events ==> !e.Finish? }

  /** However the window of the active call goes on, its output is all that was emitted since the drain
      before the call, capped. */
  ghost predicate KeepsWindow(s: State)
    requires s.active.Some?
  {
    forall events :: NoFinish(events) ==> GetsWindow(s, events)
  }

  ghost predicate GetsWindow(s: State, events: seq<Event>)
    requires s.active.Some?
  {
    LastOutput(Step(Run(s, events), Finish))
      == Output(s.active, CapTail(CapTail(s.since + Emitted(events), s.cap), s.active.value.maxBytes))
  }

  function LastOutput(s: State): Output {
    if s.outputs == [] then Output(None, []) else s.outputs[|s.outputs| - 1]
  }

  lemma {:induction false} WindowGrows(s: State, events: seq<Event>)
    requires Inv(s) && s.active.Some? && !s.starting && NoFinish(events)
    ensures var t := Run(s, events);
      Inv(t) && t.active == s.active && t.cap == s.cap && t.since == s.since + Emitted(events)
    decreases |events|
  {
    hide Inv, CapTail;
    if events == [] {
      assert s.since + [] == s.since;
    } else {
      var e := events[0];
      assert e in events && forall d :: d in events[1..] ==> d in events;
      StepInv(s, e);
      WindowGrows(Step(s, e), events[1..]);
      AppendAssociative(s.since, if e.Data? then e.text else [], Emitted(events[1..]));
      assert s.since + [] == s.since;
    }
  }

  lemma RunTwo(s: State, first: Event, second: Event)
    ensures Run(s, [first, second]) == Step(Step(s, first), second)
    ensures Emitted([first, second]) == (if first.Data? then first.text else []) + (if second.Data? then second.text else [])
  {
    hide Step;
    assert [first, second][1..] == [second] && [second][1..] == [];
    var last := Step(s, first);
    assert Run(last, [second]) == Run(Step(last, second), []);
    assert Emitted([second]) == (if second.Data? then second.text else []) + Emitted([]);
  }

  /** Some output, and then the first window ends. */
  lemma StartTakesWindow(s: State)
    requires Inv(s) && s.active.Some? && s.starting
    ensures !KeepsWindow(s)
  {
    hide Inv, Run, Emitted;
    var events := [Data([SPACE]), FirstWindow];
    RunTwo(s, Data([SPACE]), FirstWindow);
    var t := Run(s, events);
    assert t.pending == [] && t.active == s.active;
    hide Step, CapTail;
    FinishGives(t);
    NothingToCap(s.active.value.maxBytes);
    CapKeepsSome(s.since + Emitted(events), s.cap);
    CapKeepsSome(CapTail(s.since + Emitted(events), s.cap), s.active.value.maxBytes);
    assert NoFinish(events) && !GetsWindow(s, events);
  }

  lemma FinishGives(s: State)
    requires s.active.Some?
    ensures LastOutput(Step(s, Finish)) == Output(s.active, CapTail(s.pending, s.active.value.maxBytes))
  {
  }

  lemma CapKeepsSome(s: Text, max: nat)
    requires s != []
    ensures CapTail(s, max) != []
  {
    MarkerLength();
  }

  /** Once the start call has had its output nobody takes from the window. */
  lemma WindowIsOwn(s: State, events: seq<Event>)
    requires Inv(s) && s.active.Some? && !s.starting && NoFinish(events)
    ensures GetsWindow(s, events)
  {
    WindowGrows(s, events);
    FinishGives(Run(s, events));
    hide Run, Step, CapTail, Served, Starts, OutputsAreWindows, AllTyped;
  }

  /** A write call is sure of its own output exactly when the start call has had its own: an identifier
      used before, which the error at the session ceiling gives away, lets the start call take the first
      part of the write's window. */
  lemma KeepsWindowIff(s: State)
    requires Inv(s) && s.active.Some?
    ensures KeepsWindow(s) <==> !s.starting
  {
    hide Inv, GetsWindow;
    if s.starting {
      StartTakesWindow(s);
    } else {
      forall events | NoFinish(events) ensures GetsWindow(s, events) { WindowIsOwn(s, events); }
    }
  }

  /** The state in which a write is not sure of its window is reached by a write made before the start call
      returns. */
  lemma BothCanWait(cap: nat, call: Call)
    requires cap >= 1
    ensures var s := Run(Init(cap), [Submit(call), Begin]);
      Inv(s) && s.starting && s.active == Some(call) && !KeepsWindow(s)
  {
    var events := [Submit(call), Begin];
    RunTwo(Init(cap), Submit(call), Begin);
    InitInv(cap);
    RunInv(Init(cap), events);
    KeepsWindowIff(Run(Init(cap), events));
  }

  // ---- The program --------------------------------------------------------------------------------

  type SessionId = nat

  /** `starting`, `chain` and `active` stand for the promise continuations that wait on the session. */
  class PtySession {
    const id: SessionId
    const cap: nat
    var pending: Text
    var alive: bool
    var starting: bool
    var chain: seq<Call>
    var active: Option<Call>
    var typed: seq<Text>
    ghost var outputs: seq<Output>
    ghost var accepted: seq<Call>
    ghost var begun: seq<Call>
    ghost var refused: seq<Call>
    ghost var since: Text
    ghost var windows: seq<Text>

    ghost function View(): State
      reads this
    {
      State(cap, pending, alive, starting, chain, active, typed, outputs, accepted, begun, refused, since, windows)
    }

    constructor (id: SessionId, maxBytes: nat)
      ensures this.id == id && View() == Init(maxBytes)
    {
      this.id, cap := id, maxBytes;
      pending, alive, starting, chain, active, typed := [], true, true, [], None, [];
      outputs, accepted, begun, refused, since, windows := [], [], [], [], [], [];
    }

    method OnData(data: Text)
      modifies this`pending, this`since
      ensures View() == Step(old(View()), Data(data))
    {
      pending := CapTail(pending + data, cap);
      since := since + data;
    }

    /** Takes the pending output for the call `to`, capped once more. */
    method Collect(ghost to: Option<Call>, maxBytes: nat) returns (output: Text)
      modifies this`pending, this`outputs, this`since, this`windows
      ensures View() == Drain(old(View()), to, maxBytes) && outputs == old(outputs) + [Output(to, output)]
    {
      var out := pending;
      pending := [];
      windows := windows + [since];
      since := [];
      output := CapTail(out, maxBytes);
      outputs := outputs + [Output(to, output)];
    }

    /** The start call's output window ends. */
    method FinishStart() returns (output: Text)
      requires Enabled(View(), FirstWindow)
      modifies this`starting, this`pending, this`outputs, this`since, this`windows
      ensures View() == Step(old(View()), FirstWindow) && outputs == old(outputs) + [Output(None, output)]
    {
      starting := false;
      output := Collect(None, cap);
    }

    /** The chained body of a write, up to the start of its output window; false when it is refused. */
    method BeginWrite() returns (ok: bool)
      requires Enabled(View(), Begin)
      modifies this`chain, this`active, this`typed, this`begun, this`refused
      ensures View() == Step(old(View()), Begin) && ok == alive
    {
      var call := chain[0];
      chain := chain[1..];
      if !alive {
        refused := refused + [call];
        return false;
      }
      begun := begun + [call];
      active := Some(call);
      assert typed + [] == typed;
      if |call.chars| > 0 { typed := typed + [call.chars]; }
      return true;
    }

    /** The output window of the active write ends. */
    method FinishWrite() returns (output: Text, stillAlive: bool)
      requires Enabled(View(), Finish)
      modifies this`active, this`pending, this`outputs, this`since, this`windows
      ensures View() == Step(old(View()), Finish)
      ensures outputs == old(outputs) + [Output(old(active), output)] && stillAlive == alive
    {
      var maxBytes := active.value.maxBytes;
      ghost var to := active;
      active := None;
      output := Collect(to, maxBytes);
      stillAlive := alive;
    }
  }

  datatype Started =
    | Opened(id: SessionId)
    | MaxSessions(max: int, live: set<SessionId>)
    | SpawnFailed

  class PtyBackend {
    const maxSessions: Option<int>
    var sessions: map<SessionId, PtySession>

    /** Every registered session is alive and registered under its own id, and there are no more of
        them than allowed. */
    ghost predicate Valid()
      reads this, sessions.Values
    {
      && (maxSessions.Some? ==> |sessions| <= Max(0, maxSessions.value))
      && forall id :: id in sessions ==> sessions[id].id == id && sessions[id].alive
    }

    constructor (maxSessions: Option<int>)
      ensures Valid() && this.maxSessions == maxSessions && sessions == map[]
    {
      this.maxSessions := maxSessions;
      sessions := map[];
    }

    /** The synchronous part of a start: the ceiling, the spawn and the registration. `id` is the
        random identifier drawn for the session. */
    method StartInteractive(id: SessionId, maxBytes: nat, spawns: bool) returns (r: Started)
      requires Valid() && id !in sessions
      modifies this
      ensures Valid()
      ensures r.MaxSessions? <==> maxSessions.Some? && |old(sessions)| >= maxSessions.value
      ensures r.MaxSessions? ==> r.max == maxSessions.value && r.live == old(sessions).Keys
      ensures r.Opened? <==> spawns && (maxSessions.Some? ==> |old(sessions)| < maxSessions.value)
      ensures r.Opened? ==> r.id == id && id in sessions && fresh(sessions[id])
                            && sessions == old(sessions)[id := sessions[id]]
                            && sessions[id].View() == Init(maxBytes)
      ensures !r.Opened? ==> sessions == old(sessions)
    {
      if maxSessions.Some? && |sessions| >= maxSessions.value {
        return MaxSessions(maxSessions.value, sessions.Keys);
      }
      if !spawns { return SpawnFailed; }
      var session := new PtySession(id, maxBytes);
      assert sessions[id := session].Keys == sessions.Keys + {id};
      sessions := sessions[id := session];
      return Opened(id);
    }

    /** A session that ended on its own or was killed leaves the map in the same step. */
    method Remove(id: SessionId)
      requires Valid() && id in sessions
      modifies this, sessions[id]
      ensures Valid() && sessions == old(sessions) - {id}
      ensures old(sessions[id]).View() == Step(old(sessions[id].View()), Death)
    {
      var session := sessions[id];
      session.alive := false;
      assert (sessions - {id}).Keys == sessions.Keys - {id};
      sessions := sessions - {id};
    }

    /** An unknown id is a silent no-op. */
    method Kill(id: SessionId)
      requires Valid()
      modifies this, sessions.Values
      ensures Valid() && sessions == old(sessions) - {id}
      ensures id in old(sessions) ==> !old(sessions[id]).alive
      ensures forall k :: k in old(sessions) && k != id ==> old(sessions)[k].View() == old(sessions[k].View())
    {
      if id in sessions {
        Remove(id);
      }
    }

    method KillAll()
      requires Valid()
      modifies this, sessions.Values
      ensures Valid() && sessions == map[]
      ensures forall id :: id in old(sessions) ==> !old(sessions)[id].alive
    {
      var ids := sessions.Keys;
      while ids != {}
        invariant Valid() && sessions.Keys == ids && ids <= old(sessions).Keys
        invariant forall id :: id in sessions ==> sessions[id] == old(sessions)[id]
        invariant forall id :: id in old(sessions) && id !in ids ==> !old(sessions)[id].alive
        decreases ids
      {
        var id :| id in ids;
        Kill(id);
        ids := ids - {id};
      }
    }

    /** A write is accepted exactly when the session is registered; the call then queues behind the
        earlier ones. */
    method WriteStdin(id: SessionId, call: Call) returns (ok: bool)
      requires Valid()
      modifies sessions.Values
      ensures Valid() && (ok <==> id in sessions)
      ensures ok ==> sessions[id].View() == Step(old(sessions[id].View()), Submit(call))
      ensures forall k :: k in sessions && k != id ==> sessions[k].View() == old(sessions[k].View())
    {
      if id !in sessions || !sessions[id].alive { return false; }
      var session := sessions[id];
      session.chain := session.chain + [call];
      session.accepted := session.accepted + [call];
      return true;
    }
  }
}
