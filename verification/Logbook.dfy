/** The screenshot logbook: an append-only log of one entry per line, rewritten whole at each record,
    one record at a time. */
module Logbook {
  import opened Sequences
  import opened JsText

  datatype Entry = Entry(id: nat, path: Text, caption: Text, mediaType: Text, bytes: nat, recordedAt: Text)

  /** JSON serialisation and the schema check are parameters. */
  datatype Codec = Codec(parse: Text -> Option<Entry>, stringify: Entry -> Text)

  predicate IsBlank(line: Text) { Trim(line) == [] }

  /** A serialised entry is one visible line that reads back as the entry. */
  ghost predicate Faithful(c: Codec) {
    forall e :: c.parse(c.stringify(e)) == Some(e) && NEWLINE !in c.stringify(e) && !IsBlank(c.stringify(e))
  }

  // ---- Reading the log ----------------------------------------------------------------------------

  datatype LogContents = Log(entries: seq<Entry>) | Corrupt(line: nat)

  /** What the lines hold, the first of them having number `from + 1`. */
  function ParseLines(c: Codec, lines: seq<Text>, from: nat): LogContents {
    if lines == [] then Log([])
    else if IsBlank(lines[0]) then ParseLines(c, lines[1..], from + 1)
    else match c.parse(lines[0])
      case None => Corrupt(from + 1)
      case Some(entry) => Behind([entry], ParseLines(c, lines[1..], from + 1))
  }

  function Behind(entries: seq<Entry>, rest: LogContents): LogContents {
    match rest
    case Log(more) => Log(entries + more)
    case Corrupt(_) => rest
  }

  function Contents(c: Codec, text: Text): LogContents { ParseLines(c, SplitLines(text), 0) }

  method ParseLog(c: Codec, text: Text) returns (r: LogContents)
    ensures r == Contents(c, text)
  {
    var entries: seq<Entry> := [];
    var lines := SplitLines(text);
    BehindNothing(ParseLines(c, lines, 0));
    for index := 0 to |lines|
      invariant Contents(c, text) == Behind(entries, ParseLines(c, lines[index..], index))
    {
      assert lines[index..][1..] == lines[index + 1..];
      if !IsBlank(lines[index]) {
        var entry := c.parse(lines[index]);
        if entry.None? { return Corrupt(index + 1); }
        BehindTwice(entries, [entry.value], ParseLines(c, lines[index + 1..], index + 1));
        entries := entries + [entry.value];
      }
    }
    assert entries + [] == entries;
    return Log(entries);
  }

  lemma BehindNothing(rest: LogContents)
    ensures Behind([], rest) == rest
  {
    if rest.Log? { assert [] + rest.entries == rest.entries; }
  }

  lemma BehindTwice(a: seq<Entry>, b: seq<Entry>, rest: LogContents)
    ensures Behind(a, Behind(b, rest)) == Behind(a + b, rest)
  {
    if rest.Log? { AppendAssociative(a, b, rest.entries); }
  }

  /** The lines that hold something, in order. */
  function Visible(lines: seq<Text>): seq<Text> {
    if lines == [] then [] else if IsBlank(lines[0]) then Visible(lines[1..]) else [lines[0]] + Visible(lines[1..])
  }

  /** A log is corrupt at its first line that is neither blank nor an entry; otherwise it holds the entries of
      its lines that are not blank, in their order. */
  lemma {:induction false} LinesRead(c: Codec, lines: seq<Text>, from: nat)
    ensures match ParseLines(c, lines, from)
      case Corrupt(line) =>
        && from < line <= from + |lines|
        && var bad := lines[line - from - 1];
        && !IsBlank(bad) && c.parse(bad).None?
        && forall k :: 0 <= k < line - from - 1 ==> IsBlank(lines[k]) || c.parse(lines[k]).Some?
      case Log(entries) =>
        && |entries| == |Visible(lines)|
        && forall k :: 0 <= k < |entries| ==> c.parse(Visible(lines)[k]) == Some(entries[k])
    decreases |lines|
  {
    hide IsBlank;
    if lines != [] {
      LinesRead(c, lines[1..], from + 1);
      match ParseLines(c, lines[1..], from + 1) {
        case Corrupt(line) =>
          assert lines[1..][line - from - 2] == lines[line - from - 1];
          assert forall k :: 0 < k < line - from - 1 ==> lines[k] == lines[1..][k - 1];
        case Log(entries) =>
      }
    }
  }

  // ---- Appending ----------------------------------------------------------------------------------

  predicate EndsInNewline(text: Text) { text != [] && text[|text| - 1] == NEWLINE }

  /** The new text: the old one, a line break if its last line is open, and the entry's line. */
  function Appended(c: Codec, text: Text, entry: Entry): Text {
    text + (if text == [] || EndsInNewline(text) then [] else [NEWLINE]) + c.stringify(entry) + [NEWLINE]
  }

  lemma {:induction false} SplitAtNewline(a: Text, b: Text)
    ensures SplitLines(a + [NEWLINE] + b) == SplitLines(a) + SplitLines(b)
  {
    var s := a + [NEWLINE] + b;
    if a == [] {
      assert s == [NEWLINE] + b && s[1..] == b;
    } else {
      assert s[1..] == a[1..] + [NEWLINE] + b;
      SplitAtNewline(a[1..], b);
    }
  }

  lemma {:induction false} SplitOneLine(line: Text)
    requires NEWLINE !in line
    ensures SplitLines(line) == [line]
  {
    if line != [] {
      assert line[0] in line;
      SplitOneLine(line[1..]);
      assert line == [line[0]] + line[1..];
    }
  }

  lemma {:induction false} ParseAppended(c: Codec, lines: seq<Text>, more: seq<Text>, from: nat)
    ensures ParseLines(c, lines + more, from) ==
      match ParseLines(c, lines, from)
      case Corrupt(line) => Corrupt(line)
      case Log(entries) => Behind(entries, ParseLines(c, more, from + |lines|))
    decreases |lines|
  {
    if lines == [] {
      assert lines + more == more;
      BehindNothing(ParseLines(c, more, from));
    } else {
      assert (lines + more)[1..] == lines[1..] + more;
      ParseAppended(c, lines[1..], more, from + 1);
      if !IsBlank(lines[0]) && c.parse(lines[0]).Some? && ParseLines(c, lines[1..], from + 1).Log? {
        BehindTwice([c.parse(lines[0]).value], ParseLines(c, lines[1..], from + 1).entries,
                    ParseLines(c, more, from + |lines|));
      }
    }
  }

  lemma BlankLine()
    ensures IsBlank([])
  {
  }

  lemma LastLineParses(c: Codec, entry: Entry, from: nat)
    requires Faithful(c)
    ensures ParseLines(c, [c.stringify(entry), []], from) == Log([entry])
  {
    BlankLine();
    var lines: seq<Text>, last: seq<Text> := [c.stringify(entry), []], [[]];
    assert lines[1..] == last && last[1..] == [];
    assert ParseLines(c, lines[1..], from + 1) == Log([]);
    assert [entry] + [] == [entry];
  }

  /** Everything but the last line of the new text was there before, up to one blank line. */
  lemma SplitAppended(c: Codec, text: Text, entry: Entry)
    requires Faithful(c)
    ensures exists lines: seq<Text>, blanks: seq<Text> ::
      && SplitLines(text) == lines + blanks && (blanks == [] || blanks == [[]])
      && SplitLines(Appended(c, text, entry)) == lines + [c.stringify(entry), []]
  {
    var line := c.stringify(entry);
    SplitOneLine(line);
    SplitAtNewline(line, []);
    assert line + [NEWLINE] + [] == line + [NEWLINE];
    assert [line] + [[]] == [line, []];
    if text == [] {
      assert Appended(c, text, entry) == line + [NEWLINE];
      assert SplitLines(text) == [] + [[]];
      assert SplitLines(line + [NEWLINE]) == [] + [line, []];
    } else if EndsInNewline(text) {
      var t := text[..|text| - 1];
      assert text == t + [NEWLINE] + [];
      SplitAtNewline(t, []);
      assert Appended(c, text, entry) == t + [NEWLINE] + (line + [NEWLINE]);
      SplitAtNewline(t, line + [NEWLINE]);
    } else {
      assert Appended(c, text, entry) == text + [NEWLINE] + (line + [NEWLINE]);
      SplitAtNewline(text, line + [NEWLINE]);
      assert SplitLines(text) == SplitLines(text) + [];
    }
  }

  lemma BlankEnd(c: Codec, from: nat)
    ensures ParseLines(c, [[]], from) == Log([])
  {
    BlankLine();
    var last: seq<Text> := [[]];
    assert last[1..] == [];
  }

  lemma NothingBehind(entries: seq<Entry>)
    ensures Behind(entries, Log([])) == Log(entries)
  {
    assert entries + [] == entries;
  }

  /** The rewritten log holds the old entries and the new one behind them, whether or not the old text
      ended in a newline; a corrupt line stays the one reported. */
  lemma AppendAddsOneEntry(c: Codec, text: Text, entry: Entry)
    requires Faithful(c)
    ensures Contents(c, Appended(c, text, entry)) ==
      match Contents(c, text)
      case Log(entries) => Log(entries + [entry])
      case Corrupt(line) => Corrupt(line)
  {
    hide ParseLines, Faithful, Appended;
    SplitAppended(c, text, entry);
    var lines: seq<Text>, blanks: seq<Text> :| SplitLines(text) == lines + blanks && (blanks == [] || blanks == [[]])
      && SplitLines(Appended(c, text, entry)) == lines + [c.stringify(entry), []];
    ParseAppended(c, lines, blanks, 0);
    ParseAppended(c, lines, [c.stringify(entry), []], 0);
    LastLineParses(c, entry, |lines|);
    BlankEnd(c, |lines|);
    if ParseLines(c, lines, 0).Log? { NothingBehind(ParseLines(c, lines, 0).entries); }
    assert blanks == [] ==> lines + blanks == lines;
  }

  // ---- Recording ----------------------------------------------------------------------------------

  datatype Inspection = Image(mediaType: Text, bytes: nat) | UnsupportedType | Missing | Empty

  /** A record call: its input, and how the path guards, the file system and the clock answer it. */
  datatype Request = Request(
    path: Option<Text>,
    caption: Option<Text>,
    confine: Text -> Option<Text>,  // the image path below the root, unless the guards refuse it
    logPathAllowed: bool,
    inspect: Text -> Inspection,
    readable: bool,                 // the log, if there is one
    now: Option<Text>,              // None: the clock throws
    makesDirectory: bool,
    logPathStillAllowed: bool,      // checked again once the directory exists
    writes: bool)

  datatype Failure =
    | InvalidInput
    | CaptionTooLong(chars: nat, maxChars: nat)
    | PathTraversal(path: Text)
    | LogPathRefused
    | UnsupportedImageType(path: Text)
    | ImageNotFound(path: Text)
    | EmptyImage(path: Text)
    | LogCorrupt(line: nat)
    | LogFull(maxEntries: nat)
    | WriteFailed

  datatype Outcome = Recorded(entry: Entry, total: nat) | Failed(failure: Failure)

  datatype Limits = Limits(maxCaptionChars: nat, maxEntries: nat)

  datatype Acceptance = Accepted(path: Text, caption: Text, mediaType: Text, bytes: nat) | Rejected(failure: Failure)

  /** The checks in front of the log, in their order. */
  function AcceptRecord(limits: Limits, r: Request): Acceptance {
    if r.path.None? || r.path.value == [] then Rejected(InvalidInput)
    else if r.caption.None? || IsBlank(r.caption.value) then Rejected(InvalidInput)
    else if |r.caption.value| > limits.maxCaptionChars then
      Rejected(CaptionTooLong(|r.caption.value|, limits.maxCaptionChars))
    else match r.confine(r.path.value)
      case None => Rejected(PathTraversal(r.path.value))
      case Some(path) =>
        if !r.logPathAllowed then Rejected(LogPathRefused)
        else match r.inspect(path)
          case UnsupportedType => Rejected(UnsupportedImageType(path))
          case Missing => Rejected(ImageNotFound(path))
          case Empty => Rejected(EmptyImage(path))
          case Image(mediaType, bytes) =>
            if bytes == 0 then Rejected(EmptyImage(path)) else Accepted(path, r.caption.value, mediaType, bytes)
  }

  /** The log file; None when there is none, which reads as an empty log. */
  type File = Option<Text>

  function TextOf(file: File): Text { if file.Some? then file.value else [] }

  function Record(c: Codec, limits: Limits, file: File, r: Request): (File, Outcome) {
    match AcceptRecord(limits, r)
    case Rejected(failure) => (file, Failed(failure))
    case Accepted(path, caption, mediaType, bytes) =>
      if file.Some? && !r.readable then (file, Failed(WriteFailed))
      else match Contents(c, TextOf(file))
        case Corrupt(line) => (file, Failed(LogCorrupt(line)))
        case Log(entries) =>
          if |entries| >= limits.maxEntries then (file, Failed(LogFull(limits.maxEntries)))
          else if r.now.None? || !r.makesDirectory then (file, Failed(WriteFailed))
          else if !r.logPathStillAllowed then (file, Failed(LogPathRefused))
          else if !r.writes then (file, Failed(WriteFailed))
          else
            var entry := Entry(|entries| + 1, path, caption, mediaType, bytes, r.now.value);
            (Some(Appended(c, TextOf(file), entry)), Recorded(entry, |entries| + 1))
  }

  /** The entry holds what was asked for: the confined path of an existing image that is not empty, and
      a visible caption within the limit. */
  ghost predicate Answers(limits: Limits, r: Request, entry: Entry) {
    && r.path.Some? && r.confine(r.path.value) == Some(entry.path)
    && r.inspect(entry.path) == Image(entry.mediaType, entry.bytes) && entry.bytes > 0
    && r.caption == Some(entry.caption) && !IsBlank(entry.caption) && |entry.caption| <= limits.maxCaptionChars
    && r.now == Some(entry.recordedAt)
    && r.logPathAllowed && r.logPathStillAllowed
  }

  /** One call: a failure leaves the file as it was, a success adds exactly the reported entry. */
  lemma RecordAddsOrLeaves(c: Codec, limits: Limits, file: File, r: Request)
    requires Faithful(c)
    ensures var (after, outcome) := Record(c, limits, file, r);
      if !outcome.Recorded? then after == file
      else match Contents(c, TextOf(file))
        case Corrupt(_) => false
        case Log(entries) =>
          && Contents(c, TextOf(after)) == Log(entries + [outcome.entry])
          && outcome.entry.id == outcome.total == |entries| + 1 <= limits.maxEntries
          && Answers(limits, r, outcome.entry)
  {
    hide Contents, Appended, IsBlank;
    var (after, outcome) := Record(c, limits, file, r);
    if outcome.Recorded? { AppendAddsOneEntry(c, TextOf(file), outcome.entry); }
  }

  /** Why a call fails. */
  ghost predicate HasCause(c: Codec, limits: Limits, file: File, r: Request, failure: Failure) {
    match failure
    case InvalidInput => r.path.None? || r.path.value == [] || r.caption.None? || IsBlank(r.caption.value)
    case CaptionTooLong(chars, maxChars) =>
      r.caption.Some? && chars == |r.caption.value| > maxChars == limits.maxCaptionChars
    case PathTraversal(path) => r.path == Some(path) && r.confine(path).None?
    case LogPathRefused => !r.logPathAllowed || !r.logPathStillAllowed
    case UnsupportedImageType(path) => r.inspect(path).UnsupportedType? && r.path.Some? && r.confine(r.path.value) == Some(path)
    case ImageNotFound(path) => r.inspect(path).Missing? && r.path.Some? && r.confine(r.path.value) == Some(path)
    case EmptyImage(path) =>
      && (r.inspect(path).Empty? || (r.inspect(path).Image? && r.inspect(path).bytes == 0))
      && r.path.Some? && r.confine(r.path.value) == Some(path)
    case LogCorrupt(line) => Contents(c, TextOf(file)) == Corrupt(line)
    case LogFull(maxEntries) =>
      Contents(c, TextOf(file)).Log? && |Contents(c, TextOf(file)).entries| >= maxEntries == limits.maxEntries
    case WriteFailed => (file.Some? && !r.readable) || r.now.None? || !r.makesDirectory || !r.writes
  }

  /** Nothing stands in the way of the call. */
  ghost predicate CanRecord(c: Codec, limits: Limits, file: File, r: Request) {
    && r.path.Some? && r.path.value != [] && r.caption.Some? && !IsBlank(r.caption.value)
    && |r.caption.value| <= limits.maxCaptionChars
    && r.confine(r.path.value).Some? && r.logPathAllowed
    && r.inspect(r.confine(r.path.value).value).Image? && r.inspect(r.confine(r.path.value).value).bytes > 0
    && (file.Some? ==> r.readable)
    && Contents(c, TextOf(file)).Log? && |Contents(c, TextOf(file)).entries| < limits.maxEntries
    && r.now.Some? && r.makesDirectory && r.logPathStillAllowed && r.writes
  }

  /** A call is recorded exactly when nothing stands in its way, and a failure it answers has its cause. */
  lemma RecordedIff(c: Codec, limits: Limits, file: File, r: Request)
    ensures var outcome := Record(c, limits, file, r).1;
      && (outcome.Recorded? <==> CanRecord(c, limits, file, r))
      && (outcome.Failed? ==> HasCause(c, limits, file, r, outcome.failure))
  {
    hide Contents, Appended, IsBlank;
  }

  /** The calls in the order the instance's queue runs them. */
  function RecordAll(c: Codec, limits: Limits, file: File, requests: seq<Request>): (File, seq<Outcome>)
    decreases |requests|
  {
    if requests == [] then (file, [])
    else
      var (after, outcome) := Record(c, limits, file, requests[0]);
      var (last, outcomes) := RecordAll(c, limits, after, requests[1..]);
      (last, [outcome] + outcomes)
  }

  function Landed(outcomes: seq<Outcome>): seq<Entry> {
    if outcomes == [] then []
    else (if outcomes[0].Recorded? then [outcomes[0].entry] else []) + Landed(outcomes[1..])
  }

  /** What the log holds after some calls, given what it held before and what the calls reported. */
  ghost predicate Gained(limits: Limits, before: LogContents, after: LogContents, landed: seq<Entry>) {
    match before
    case Corrupt(_) => after == before && landed == []
    case Log(entries) =>
      && after == Log(entries + landed)
      && |entries + landed| <= Max(|entries|, limits.maxEntries)
      && forall i :: 0 <= i < |landed| ==> landed[i].id == |entries| + i + 1
  }

  lemma GainedOne(limits: Limits, before: LogContents, next: LogContents, after: LogContents, entry: Entry, landed: seq<Entry>)
    requires before.Log? && next == Log(before.entries + [entry])
    requires entry.id == |before.entries| + 1 <= limits.maxEntries && Gained(limits, next, after, landed)
    ensures Gained(limits, before, after, [entry] + landed)
  {
    AppendAssociative(before.entries, [entry], landed);
  }

  /** Any number of queued calls: the log gains exactly the entries reported as recorded, each once and
      in order, numbered on from the entries before; it never grows over the limit, and a corrupt log
      stays as it is. */
  lemma {:induction false} EveryRecordLandsOnce(c: Codec, limits: Limits, file: File, requests: seq<Request>)
    requires Faithful(c)
    ensures var (after, outcomes) := RecordAll(c, limits, file, requests);
      && |outcomes| == |requests|
      && Gained(limits, Contents(c, TextOf(file)), Contents(c, TextOf(after)), Landed(outcomes))
    decreases |requests|
  {
    hide Contents, Faithful, Record, Answers;
    var before := Contents(c, TextOf(file));
    if requests == [] {
      if before.Log? { assert before.entries + [] == before.entries; }
    } else {
      RecordAddsOrLeaves(c, limits, file, requests[0]);
      var (next, outcome) := Record(c, limits, file, requests[0]);
      EveryRecordLandsOnce(c, limits, next, requests[1..]);
      var (after, outcomes) := RecordAll(c, limits, next, requests[1..]);
      LandedFirst(outcome, outcomes);
      if outcome.Recorded? {
        GainedOne(limits, before, Contents(c, TextOf(next)), Contents(c, TextOf(after)), outcome.entry, Landed(outcomes));
      }
    }
  }

  lemma LandedFirst(outcome: Outcome, outcomes: seq<Outcome>)
    ensures Landed([outcome] + outcomes) == (if outcome.Recorded? then [outcome.entry] else []) + Landed(outcomes)
    ensures !outcome.Recorded? ==> Landed([outcome] + outcomes) == Landed(outcomes)
  {
    assert ([outcome] + outcomes)[1..] == outcomes;
    assert [] + Landed(outcomes) == Landed(outcomes);
  }

  /** The tool's instance: the queue runs one record at a time. */
  class ScreenshotLogbook {
    const codec: Codec
    const limits: Limits
    var file: File
    var queue: seq<Request>
    ghost var begun: seq<Request>
    ghost var outcomes: seq<Outcome>
    ghost const initial: File

    /** The file is what the calls run so far make of the initial one. */
    ghost predicate Valid()
      reads this
    {
      RecordAll(codec, limits, initial, begun) == (file, outcomes)
    }

    constructor (codec: Codec, limits: Limits, file: File)
      ensures Valid() && this.file == file && queue == [] && begun == [] && initial == file
    {
      this.codec, this.limits, this.file := codec, limits, file;
      queue, begun, outcomes, initial := [], [], [], file;
    }

    method Submit(request: Request)
      requires Valid()
      modifies this`queue
      ensures Valid() && queue == old(queue) + [request]
    {
      queue := queue + [request];
    }

    method RunNext() returns (outcome: Outcome)
      requires Valid() && queue != []
      modifies this`queue, this`file, this`begun, this`outcomes
      ensures Valid() && queue == old(queue)[1..] && begun == old(begun) + [old(queue)[0]]
      ensures (file, outcome) == Record(codec, limits, old(file), old(queue)[0])
    {
      var request := queue[0];
      queue := queue[1..];
      RecordAllSnoc(codec, limits, initial, begun, request);
      begun := begun + [request];
      outcome := RecordOrThrow(request);
      outcomes := outcomes + [outcome];
    }

    method RecordOrThrow(request: Request) returns (outcome: Outcome)
      modifies this`file
      ensures (file, outcome) == Record(codec, limits, old(file), request)
    {
      var image := AcceptRecord(limits, request);
      if image.Rejected? { return Failed(image.failure); }
      if file.Some? && !request.readable { return Failed(WriteFailed); }
      var text := if file.Some? then file.value else [];
      var log := ParseLog(codec, text);
      match log {
        case Corrupt(line) => return Failed(LogCorrupt(line));
        case Log(entries) =>
          if |entries| >= limits.maxEntries { return Failed(LogFull(limits.maxEntries)); }
          if request.now.None? { return Failed(WriteFailed); }
          var entry := Entry(|entries| + 1, image.path, image.caption, image.mediaType, image.bytes, request.now.value);
          var failed := AppendEntry(request, text, entry);
          if failed.Some? { return Failed(failed.value); }
          return Recorded(entry, |entries| + 1);
      }
    }

    /** Rewrites the whole log with the new line, or fails and leaves it. */
    method AppendEntry(request: Request, text: Text, entry: Entry) returns (failed: Option<Failure>)
      modifies this`file
      ensures failed == if !request.makesDirectory then Some(WriteFailed)
                        else if !request.logPathStillAllowed then Some(LogPathRefused)
                        else if !request.writes then Some(WriteFailed) else None
      ensures file == if failed.Some? then old(file) else Some(Appended(codec, text, entry))
    {
      if !request.makesDirectory { return Some(WriteFailed); }
      if !request.logPathStillAllowed { return Some(LogPathRefused); }
      if !request.writes { return Some(WriteFailed); }
      var separator := if text == [] || EndsInNewline(text) then [] else [NEWLINE];
      file := Some(text + separator + codec.stringify(entry) + [NEWLINE]);
      return None;
    }
  }

  lemma {:induction false} RecordAllSnoc(c: Codec, limits: Limits, file: File, requests: seq<Request>, r: Request)
    ensures var (after, outcomes) := RecordAll(c, limits, file, requests);
      var (last, outcome) := Record(c, limits, after, r);
      RecordAll(c, limits, file, requests + [r]) == (last, outcomes + [outcome])
    decreases |requests|
  {
    if requests == [] {
      var (next, outcome) := Record(c, limits, file, r);
      assert requests + [r] == [r] && [r][0] == r && [r][1..] == [];
      assert RecordAll(c, limits, next, []) == (next, []);
      assert [outcome] + [] == [outcome] && [] + [outcome] == [outcome];
    } else {
      assert (requests + [r])[1..] == requests[1..] + [r];
      var (next, outcome) := Record(c, limits, file, requests[0]);
      RecordAllSnoc(c, limits, next, requests[1..], r);
      var (after, outcomes) := RecordAll(c, limits, next, requests[1..]);
      AppendAssociative([outcome], outcomes, [Record(c, limits, after, r).1]);
    }
  }

  // ---- Listing ------------------------------------------------------------------------------------

  const DEFAULT_LIST_LIMIT := 20

  /** The latest entries, oldest first: `slice(-count)` with a count of at least one. */
  function List(entries: seq<Entry>, limit: Option<nat>, maxEntries: nat): seq<Entry> {
    var count := Min(if limit.Some? then limit.value else DEFAULT_LIST_LIMIT, maxEntries);
    if count == 0 || count >= |entries| then entries else entries[|entries| - count..]
  }

  /** A listing is the end of the log: as many entries as asked for, 20 if nothing is asked, and never more
      than the log may hold. */
  lemma ListIsEnd(entries: seq<Entry>, limit: Option<nat>, maxEntries: nat)
    requires maxEntries >= 1 && (limit.Some? ==> limit.value >= 1)
    ensures var count := Min(if limit.Some? then limit.value else 20, maxEntries);
      count >= 1 && List(entries, limit, maxEntries) == entries[|entries| - Min(count, |entries|)..]
  {
  }

  lemma EndsAlike(s: seq<Entry>, x: Entry, count: nat)
    requires count >= 1
    ensures var before, now := s[|s| - Min(count, |s|)..], (s + [x])[|s| + 1 - Min(count, |s| + 1)..];
      && now != [] && now[|now| - 1] == x
      && |now| - 1 <= |before| && now[..|now| - 1] == before[|before| - (|now| - 1)..]
  {
  }

  /** Right after a successful record a listing ends in the new entry, and is otherwise the end of what
      a listing gave before. */
  lemma ListEndsInLatest(entries: seq<Entry>, entry: Entry, limit: Option<nat>, maxEntries: nat)
    requires maxEntries >= 1 && (limit.Some? ==> limit.value >= 1) && |entries| < maxEntries
    ensures var before, now := List(entries, limit, maxEntries), List(entries + [entry], limit, maxEntries);
      && now != [] && now[|now| - 1] == entry
      && |now| - 1 <= |before| && now[..|now| - 1] == before[|before| - (|now| - 1)..]
  {
    hide List;
    ListIsEnd(entries, limit, maxEntries);
    ListIsEnd(entries + [entry], limit, maxEntries);
    EndsAlike(entries, entry, Min(if limit.Some? then limit.value else DEFAULT_LIST_LIMIT, maxEntries));
  }
}
