/** Text search over a tree: a recursive walk that shares one mutable state and stops early, proved
    equal to listing every match in traversal order and cutting the list. */
module SearchText {
  import opened Sequences
  import opened JsText

  type Byte = b: int | 0 <= b < 0x100

  type Path = seq<Text>

  datatype Match = Match(file: Path, line: nat, preview: Text)

  const BINARY_PROBE_BYTES := 8 * 1024
  const PREVIEW_MAX := 200
  const ELLIPSIS: CodeUnit := 0x2026
  const MAX_BACKEND_WALK_DEPTH := 64

  /** The settings of one search. The line predicate, the path guard and the UTF-8 decoder of the
      platform are parameters. */
  datatype Config = Config(
    matcher: Text -> bool,
    forbidden: Path -> bool,
    decode: seq<Byte> -> Text,
    maxMatches: int,
    maxFileSize: int)

  // ---- Every match, in traversal order ------------------------------------------------------------

  function Preview(line: Text): Text {
    if |line| > PREVIEW_MAX then line[..PREVIEW_MAX] + [ELLIPSIS] else line
  }

  /** The matching lines among `lines`, the first of which has number `from + 1`. */
  function LineMatches(c: Config, file: Path, lines: seq<Text>, from: nat): seq<Match> {
    if lines == [] then []
    else (if c.matcher(lines[0]) then [Match(file, from + 1, Preview(lines[0]))] else [])
         + LineMatches(c, file, lines[1..], from + 1)
  }

  predicate IsBinary(bytes: seq<Byte>) {
    exists i :: 0 <= i < Min(|bytes|, BINARY_PROBE_BYTES) && bytes[i] == 0
  }

  /** A file that cannot be read, is too large or is binary has no matches. */
  function FileMatches(c: Config, file: Path, bytes: Option<seq<Byte>>): seq<Match> {
    if bytes.None? || |bytes.value| > c.maxFileSize || IsBinary(bytes.value) then []
    else LineMatches(c, file, SplitLines(c.decode(bytes.value)), 0)
  }

  datatype Node =
    | File(bytes: Option<seq<Byte>>)       // None: cannot be read
    | Directory(listing: Option<Listing>)  // None: cannot be read
    | Other

  datatype Listing = End | Entry(name: Text, node: Node, rest: Listing)

  function AllMatches(c: Config, dir: Path, listing: Listing): seq<Match>
    decreases listing
  {
    match listing
    case End => []
    case Entry(name, node, rest) => EntryMatches(c, dir + [name], node) + AllMatches(c, dir, rest)
  }

  function EntryMatches(c: Config, path: Path, node: Node): seq<Match>
    decreases node
  {
    if c.forbidden(path) then []
    else match node
      case Directory(Some(listing)) => AllMatches(c, path, listing)
      case File(bytes) => FileMatches(c, path, bytes)
      case _ => []
  }

  datatype FileStat = FileStat(isDirectory: bool, isFile: bool, size: int)

  /** An injected file system; it may be cyclic. */
  datatype Backend = Backend(
    list: Path -> Option<seq<Text>>,
    stat: Path -> Option<FileStat>,
    read: Path -> Option<Text>)

  function BackendMatches(c: Config, b: Backend, dir: Path, depth: nat): seq<Match>
    decreases MAX_BACKEND_WALK_DEPTH + 1 - depth, 1, 0
  {
    if depth > MAX_BACKEND_WALK_DEPTH then []
    else match b.list(dir)
      case None => []
      case Some(names) => BackendNamesMatches(c, b, dir, names, depth)
  }

  function BackendNamesMatches(c: Config, b: Backend, dir: Path, names: seq<Text>, depth: nat): seq<Match>
    requires depth <= MAX_BACKEND_WALK_DEPTH
    decreases MAX_BACKEND_WALK_DEPTH + 1 - depth, 0, |names|
  {
    if names == [] then []
    else BackendEntryMatches(c, b, dir + [names[0]], depth) + BackendNamesMatches(c, b, dir, names[1..], depth)
  }

  function BackendEntryMatches(c: Config, b: Backend, path: Path, depth: nat): seq<Match>
    requires depth <= MAX_BACKEND_WALK_DEPTH
    decreases MAX_BACKEND_WALK_DEPTH + 1 - depth, 0, 0
  {
    if c.forbidden(path) then []
    else match b.stat(path)
      case None => []
      case Some(st) =>
        if st.isDirectory then BackendMatches(c, b, path, depth + 1)
        else if st.isFile then BackendFileMatches(c, b, path, st.size)
        else []
  }

  function BackendFileMatches(c: Config, b: Backend, path: Path, size: int): seq<Match> {
    if size > c.maxFileSize then []
    else match b.read(path)
      case None => []
      case Some(content) =>
        if 0 in content[..Min(|content|, BINARY_PROBE_BYTES)] then []
        else LineMatches(c, path, SplitLines(content), 0)
  }

  // ---- The shared state ---------------------------------------------------------------------------

  function Kept(maxMatches: int): nat { Max(0, maxMatches) }

  class SearchState {
    var matches: seq<Match>
    var totalMatches: nat
    var truncated: bool
    const maxMatches: int

    /** The state after the matches `seen` came by: the first of them, how many came by at most until
        one too many, and whether there was one too many. */
    ghost predicate Shows(seen: seq<Match>)
      reads this
    {
      && matches == seen[..Min(|seen|, Kept(maxMatches))]
      && totalMatches == Min(|seen|, Kept(maxMatches) + 1)
      && (truncated <==> |seen| > Kept(maxMatches))
    }

    constructor (maxMatches: int)
      ensures Shows([]) && this.maxMatches == maxMatches
    {
      matches, totalMatches, truncated := [], 0, false;
      this.maxMatches := maxMatches;
    }

    method RecordMatch(file: Path, line: nat, lineText: Text, ghost seen: seq<Match>) returns (goOn: bool)
      requires Shows(seen) && !truncated
      modifies this
      ensures Shows(seen + [Match(file, line, Preview(lineText))])
      ensures goOn <==> !truncated
    {
      totalMatches := totalMatches + 1;
      if |matches| < maxMatches {
        matches := matches + [Match(file, line,
          if |lineText| > PREVIEW_MAX then lineText[..PREVIEW_MAX] + [ELLIPSIS] else lineText)];
        return true;
      }
      truncated := true;
      return false;
    }

    /** A truncated state shows any longer list as well. */
    lemma ShowsMore(seen: seq<Match>, more: seq<Match>)
      requires Shows(seen) && truncated
      ensures Shows(seen + more)
    {
    }
  }

  method IsBinaryBuffer(buffer: seq<Byte>) returns (binary: bool)
    ensures binary <==> IsBinary(buffer)
    ensures binary <==> exists i :: 0 <= i < |buffer| && i < 8192 && buffer[i] == 0
  {
    var probeEnd := Min(|buffer|, BINARY_PROBE_BYTES);
    for i := 0 to probeEnd
      invariant forall k :: 0 <= k < i ==> buffer[k] != 0
    {
      if buffer[i] == 0 { return true; }
    }
    return false;
  }

  /** The loop over the lines of one file, shared by both walks. */
  method ScanLines(c: Config, file: Path, lines: seq<Text>, state: SearchState, ghost seen: seq<Match>)
    requires state.Shows(seen) && !state.truncated
    modifies state
    ensures state.Shows(seen + LineMatches(c, file, lines, 0))
  {
    ghost var done: seq<Match> := [];
    assert seen + done == seen;
    for i := 0 to |lines|
      invariant state.Shows(seen + done) && !state.truncated
      invariant LineMatches(c, file, lines, 0) == done + LineMatches(c, file, lines[i..], i)
    {
      assert lines[i..][1..] == lines[i + 1..];
      ghost var rest := LineMatches(c, file, lines[i + 1..], i + 1);
      if c.matcher(lines[i]) {
        var goOn := state.RecordMatch(file, i + 1, lines[i], seen + done);
        ghost var now := done + [Match(file, i + 1, Preview(lines[i]))];
        assert seen + done + [Match(file, i + 1, Preview(lines[i]))] == seen + now;
        AppendAssociative(done, [Match(file, i + 1, Preview(lines[i]))], rest);
        done := now;
        if !goOn {
          state.ShowsMore(seen + done, rest);
          AppendAssociative(seen, done, rest);
          return;
        }
      }
    }
    assert done + LineMatches(c, file, lines[|lines|..], |lines|) == done;
  }

  method ScanFile(c: Config, file: Path, bytes: Option<seq<Byte>>, state: SearchState, ghost seen: seq<Match>)
    requires state.Shows(seen) && !state.truncated
    modifies state
    ensures state.Shows(seen + FileMatches(c, file, bytes))
  {
    assert seen + [] == seen;
    if bytes.None? || |bytes.value| > c.maxFileSize { return; }
    var binary := IsBinaryBuffer(bytes.value);
    if binary { return; }
    ScanLines(c, file, SplitLines(c.decode(bytes.value)), state, seen);
  }

  method HandleEntry(c: Config, path: Path, node: Node, state: SearchState, ghost seen: seq<Match>)
    requires state.Shows(seen) && !state.truncated
    modifies state
    ensures state.Shows(seen + EntryMatches(c, path, node))
    decreases node
  {
    assert seen + [] == seen;
    if c.forbidden(path) { return; }
    match node {
      case Directory(contents) => Walk(c, path, contents, state, seen);
      case File(bytes) => ScanFile(c, path, bytes, state, seen);
      case Other =>
    }
  }

  method Walk(c: Config, dir: Path, contents: Option<Listing>, state: SearchState, ghost seen: seq<Match>)
    requires state.Shows(seen)
    modifies state
    ensures state.Shows(seen + if contents.None? then [] else AllMatches(c, dir, contents.value))
    decreases contents
  {
    assert seen + [] == seen;
    if state.truncated {
      state.ShowsMore(seen, if contents.None? then [] else AllMatches(c, dir, contents.value));
      return;
    }
    if contents.None? { return; }
    var entries := contents.value;
    ghost var done: seq<Match> := [];
    while entries.Entry?
      invariant entries == contents.value || entries < contents.value
      invariant state.Shows(seen + done)
      invariant AllMatches(c, dir, contents.value) == done + AllMatches(c, dir, entries)
      decreases entries
    {
      if state.truncated {
        state.ShowsMore(seen + done, AllMatches(c, dir, entries));
        AppendAssociative(seen, done, AllMatches(c, dir, entries));
        return;
      }
      var Entry(name, node, rest) := entries;
      HandleEntry(c, dir + [name], node, state, seen + done);
      ghost var here := EntryMatches(c, dir + [name], node);
      AppendAssociative(seen, done, here);
      AppendAssociative(done, here, AllMatches(c, dir, rest));
      done := done + here;
      entries := rest;
    }
    assert done + [] == done;
  }

  // ---- The backend twin ---------------------------------------------------------------------------

  method WalkBackend(c: Config, b: Backend, dir: Path, state: SearchState, depth: nat, ghost seen: seq<Match>)
    requires state.Shows(seen)
    modifies state
    ensures state.Shows(seen + BackendMatches(c, b, dir, depth))
    decreases MAX_BACKEND_WALK_DEPTH + 1 - depth, 1
  {
    assert seen + [] == seen;
    if state.truncated {
      state.ShowsMore(seen, BackendMatches(c, b, dir, depth));
      return;
    }
    if depth > MAX_BACKEND_WALK_DEPTH { return; }
    var listed := b.list(dir);
    if listed.None? { return; }
    var names := listed.value;
    ghost var done: seq<Match> := [];
    for i := 0 to |names|
      invariant state.Shows(seen + done)
      invariant BackendNamesMatches(c, b, dir, names, depth) == done + BackendNamesMatches(c, b, dir, names[i..], depth)
    {
      ghost var left := BackendNamesMatches(c, b, dir, names[i..], depth);
      if state.truncated {
        state.ShowsMore(seen + done, left);
        AppendAssociative(seen, done, left);
        return;
      }
      HandleBackendEntry(c, b, dir + [names[i]], state, depth, seen + done);
      assert names[i..][1..] == names[i + 1..];
      ghost var here := BackendEntryMatches(c, b, dir + [names[i]], depth);
      AppendAssociative(seen, done, here);
      AppendAssociative(done, here, BackendNamesMatches(c, b, dir, names[i + 1..], depth));
      done := done + here;
    }
    assert done + BackendNamesMatches(c, b, dir, names[|names|..], depth) == done;
  }

  method HandleBackendEntry(c: Config, b: Backend, path: Path, state: SearchState, depth: nat, ghost seen: seq<Match>)
    requires state.Shows(seen) && !state.truncated && depth <= MAX_BACKEND_WALK_DEPTH
    modifies state
    ensures state.Shows(seen + BackendEntryMatches(c, b, path, depth))
    decreases MAX_BACKEND_WALK_DEPTH + 1 - depth, 0
  {
    assert seen + [] == seen;
    if c.forbidden(path) { return; }
    var st := b.stat(path);
    if st.None? { return; }
    if st.value.isDirectory {
      WalkBackend(c, b, path, state, depth + 1, seen);
    } else if st.value.isFile {
      ScanFileBackend(c, b, path, st.value.size, state, seen);
    }
  }

  method ScanFileBackend(c: Config, b: Backend, path: Path, size: int, state: SearchState, ghost seen: seq<Match>)
    requires state.Shows(seen) && !state.truncated
    modifies state
    ensures state.Shows(seen + BackendFileMatches(c, b, path, size))
  {
    assert seen + [] == seen;
    if size > c.maxFileSize { return; }
    var content := b.read(path);
    if content.None? { return; }
    if 0 in content.value[..Min(|content.value|, BINARY_PROBE_BYTES)] { return; }
    ScanLines(c, path, SplitLines(content.value), state, seen);
  }

  // ---- The result ---------------------------------------------------------------------------------

  datatype SearchResult = SearchResult(matches: seq<Match>, truncated: bool, totalMatches: nat)

  /** The full list of matches, cut at the limit. */
  function CutShort(all: seq<Match>, maxMatches: int): SearchResult {
    SearchResult(all[..Min(|all|, Kept(maxMatches))], |all| > Kept(maxMatches), Min(|all|, Kept(maxMatches) + 1))
  }

  /** The first matches, as many as the limit allows; cut exactly when there is one more, which is counted
      but not kept. */
  ghost predicate IsFirst(r: SearchResult, all: seq<Match>, maxMatches: int) {
    && r.matches <= all
    && (r.truncated <==> |all| > maxMatches && all != [])
    && (!r.truncated ==> r.matches == all && r.totalMatches == |all|)
    && (r.truncated ==> |r.matches| == (if maxMatches < 0 then 0 else maxMatches) && r.totalMatches == |r.matches| + 1)
  }

  method SearchLocal(c: Config, scope: Path, contents: Option<Listing>) returns (r: SearchResult)
    ensures r == CutShort(if contents.None? then [] else AllMatches(c, scope, contents.value), c.maxMatches)
    ensures IsFirst(r, if contents.None? then [] else AllMatches(c, scope, contents.value), c.maxMatches)
  {
    var state := new SearchState(c.maxMatches);
    Walk(c, scope, contents, state, []);
    ghost var all := if contents.None? then [] else AllMatches(c, scope, contents.value);
    assert [] + all == all;
    return SearchResult(state.matches, state.truncated, state.totalMatches);
  }

  method SearchBackend(c: Config, b: Backend, scope: Path) returns (r: SearchResult)
    ensures r == CutShort(BackendMatches(c, b, scope, 0), c.maxMatches)
    ensures IsFirst(r, BackendMatches(c, b, scope, 0), c.maxMatches)
  {
    var state := new SearchState(c.maxMatches);
    WalkBackend(c, b, scope, state, 0, []);
    assert [] + BackendMatches(c, b, scope, 0) == BackendMatches(c, b, scope, 0);
    return SearchResult(state.matches, state.truncated, state.totalMatches);
  }

  // ---- What the full list holds -------------------------------------------------------------------

  /** The line itself up to 200 code units, and otherwise its first 200 and an ellipsis. */
  ghost predicate Previews(line: Text, preview: Text) {
    if |line| <= 200 then preview == line
    else |preview| == 201 && preview[..200] == line[..200] && preview[200] == 0x2026
  }

  lemma PreviewIs(line: Text, preview: Text)
    ensures preview == Preview(line) <==> Previews(line, preview)
  {
    if |line| > 200 && Previews(line, preview) { assert preview == preview[..200] + [preview[200]]; }
  }

  /** `m` reports one of the lines: its number, its text cut to the preview, and that it matches. */
  ghost predicate Reports(c: Config, file: Path, lines: seq<Text>, from: nat, m: Match) {
    && m.file == file && from < m.line <= from + |lines|
    && var line := lines[m.line - from - 1];
    && c.matcher(line) && Previews(line, m.preview)
  }

  /** The head line, if it matches, in front of the rest. */
  lemma HeadLine(c: Config, file: Path, lines: seq<Text>, from: nat)
    requires lines != []
    ensures var rest := LineMatches(c, file, lines[1..], from + 1);
      LineMatches(c, file, lines, from) ==
        if c.matcher(lines[0]) then [Match(file, from + 1, Preview(lines[0]))] + rest else rest
  {
  }

  lemma ReportsHeadOrRest(c: Config, file: Path, lines: seq<Text>, from: nat, m: Match)
    requires lines != []
    ensures Reports(c, file, lines, from, m) <==>
      || (m == Match(file, from + 1, Preview(lines[0])) && c.matcher(lines[0]))
      || Reports(c, file, lines[1..], from + 1, m)
  {
    PreviewIs(lines[0], m.preview);
    hide Preview, Previews;
    if from + 1 < m.line <= from + |lines| { assert lines[1..][m.line - from - 2] == lines[m.line - from - 1]; }
  }

  /** Within a file the list holds exactly the matching lines. */
  lemma {:induction false} LineMatchesExactly(c: Config, file: Path, lines: seq<Text>, from: nat, m: Match)
    ensures m in LineMatches(c, file, lines, from) <==> Reports(c, file, lines, from, m)
    decreases |lines|
  {
    if lines != [] {
      LineMatchesExactly(c, file, lines[1..], from + 1, m);
      HeadLine(c, file, lines, from);
      ReportsHeadOrRest(c, file, lines, from, m);
      hide LineMatches, Reports, Preview;
    }
  }

  ghost predicate Ascending(all: seq<Match>) {
    forall i, j :: 0 <= i < j < |all| ==> all[i].line < all[j].line
  }

  lemma AscendingBehind(first: Match, rest: seq<Match>)
    requires Ascending(rest) && forall m :: m in rest ==> first.line < m.line
    ensures Ascending([first] + rest)
  {
  }

  lemma BehindTheHead(c: Config, file: Path, lines: seq<Text>, from: nat)
    ensures forall m :: m in LineMatches(c, file, lines, from) ==> from < m.line
  {
    forall m | m in LineMatches(c, file, lines, from) ensures from < m.line {
      LineMatchesExactly(c, file, lines, from, m);
    }
  }

  /** And holds them in the order of their numbers, so none twice. */
  lemma {:induction false} LineMatchesInOrder(c: Config, file: Path, lines: seq<Text>, from: nat)
    ensures Ascending(LineMatches(c, file, lines, from))
    decreases |lines|
  {
    hide Preview;
    if lines != [] {
      hide LineMatches, Ascending;
      LineMatchesInOrder(c, file, lines[1..], from + 1);
      BehindTheHead(c, file, lines[1..], from + 1);
      HeadLine(c, file, lines, from);
      if c.matcher(lines[0]) {
        AscendingBehind(Match(file, from + 1, Preview(lines[0])), LineMatches(c, file, lines[1..], from + 1));
      }
    }
  }

  /** The listing of `dir` leads along `below` to a readable file, past no forbidden path. */
  ghost predicate Holds(c: Config, dir: Path, listing: Listing, below: Path, bytes: seq<Byte>)
    decreases listing
  {
    match listing
    case End => false
    case Entry(name, node, rest) =>
      || Holds(c, dir, rest, below, bytes)
      || (below != [] && below[0] == name && NodeHolds(c, dir + [name], node, below[1..], bytes))
  }

  ghost predicate NodeHolds(c: Config, path: Path, node: Node, below: Path, bytes: seq<Byte>)
    decreases node
  {
    && !c.forbidden(path)
    && match node
       case File(content) => below == [] && content == Some(bytes)
       case Directory(Some(listing)) => Holds(c, path, listing, below, bytes)
       case Other => false
       case Directory(None) => false
  }

  /** A text file of acceptable size, one of whose lines `m` reports. */
  ghost predicate ReportsFile(c: Config, bytes: seq<Byte>, m: Match) {
    && |bytes| <= c.maxFileSize && !IsBinary(bytes)
    && Reports(c, m.file, SplitLines(c.decode(bytes)), 0, m)
  }

  ghost predicate Below(p: Path, dir: Path) { |dir| <= |p| && p[..|dir|] == dir }

  ghost predicate ReportedFrom(c: Config, dir: Path, listing: Listing, m: Match) {
    Below(m.file, dir) && exists bytes :: Holds(c, dir, listing, m.file[|dir|..], bytes) && ReportsFile(c, bytes, m)
  }

  ghost predicate ReportedAt(c: Config, path: Path, node: Node, m: Match) {
    Below(m.file, path) && exists bytes :: NodeHolds(c, path, node, m.file[|path|..], bytes) && ReportsFile(c, bytes, m)
  }

  lemma FileMatchesExactly(c: Config, path: Path, bytes: Option<seq<Byte>>, m: Match)
    ensures m in FileMatches(c, path, bytes) <==> m.file == path && bytes.Some? && ReportsFile(c, bytes.value, m)
  {
    if bytes.Some? { LineMatchesExactly(c, path, SplitLines(c.decode(bytes.value)), 0, m); }
  }

  lemma StepBelow(p: Path, dir: Path, name: Text)
    ensures Below(p, dir + [name]) <==> Below(p, dir) && |p| > |dir| && p[|dir|] == name
    ensures Below(p, dir + [name]) ==> p[|dir|..] != [] && p[|dir|..][0] == name && p[|dir|..][1..] == p[|dir + [name]|..]
  {
    if Below(p, dir + [name]) {
      assert p[..|dir|] == p[..|dir| + 1][..|dir|] && p[|dir|] == p[..|dir| + 1][|dir|];
    }
    if Below(p, dir) && |p| > |dir| && p[|dir|] == name { assert p[..|dir| + 1] == dir + [name]; }
  }

  /** The full list holds exactly the matching lines of the text files that no forbidden path hides. */
  lemma {:induction false} AllMatchesExactly(c: Config, dir: Path, listing: Listing, m: Match)
    ensures m in AllMatches(c, dir, listing) <==> ReportedFrom(c, dir, listing, m)
    decreases listing
  {
    hide ReportsFile;
    match listing
    case End =>
    case Entry(name, node, rest) =>
      AllMatchesExactly(c, dir, rest, m);
      EntryMatchesExactly(c, dir + [name], node, m);
      StepBelow(m.file, dir, name);
  }

  lemma {:induction false} EntryMatchesExactly(c: Config, path: Path, node: Node, m: Match)
    ensures m in EntryMatches(c, path, node) <==> ReportedAt(c, path, node, m)
    decreases node
  {
    hide ReportsFile;
    match node
    case Directory(Some(listing)) => AllMatchesExactly(c, path, listing, m);
    case File(content) =>
      FileMatchesExactly(c, path, content, m);
      if Below(m.file, path) && m.file[|path|..] == [] { assert m.file == path; }
      if m.file == path { assert m.file[|path|..] == []; }
    case _ =>
  }

  // ---- What the backend's full list holds ---------------------------------------------------------

  predicate Textual(content: Text) { 0 !in content[..Min(|content|, 8192)] }

  /** The backend's listings lead from `dir` along `below` to a file, past no forbidden path and within the
      depth limit. Nothing is assumed of the backend; it may be cyclic. */
  ghost predicate Reaches(c: Config, b: Backend, dir: Path, below: Path, depth: nat)
    decreases |below|, 0
  {
    && depth <= MAX_BACKEND_WALK_DEPTH && below != []
    && b.list(dir).Some? && below[0] in b.list(dir).value
    && ReachesEntry(c, b, dir + [below[0]], below[1..], depth)
  }

  ghost predicate ReachesEntry(c: Config, b: Backend, path: Path, below: Path, depth: nat)
    decreases |below|, 1
  {
    && !c.forbidden(path) && b.stat(path).Some?
    && if b.stat(path).value.isDirectory then Reaches(c, b, path, below, depth + 1)
       else b.stat(path).value.isFile && below == []
  }

  /** A text file of acceptable size, one of whose lines `m` reports. */
  ghost predicate BackendReports(c: Config, b: Backend, m: Match) {
    && b.stat(m.file).Some? && b.stat(m.file).value.size <= c.maxFileSize
    && b.read(m.file).Some? && Textual(b.read(m.file).value)
    && Reports(c, m.file, SplitLines(b.read(m.file).value), 0, m)
  }

  ghost predicate BackendReportedAt(c: Config, b: Backend, path: Path, depth: nat, m: Match) {
    Below(m.file, path) && ReachesEntry(c, b, path, m.file[|path|..], depth) && BackendReports(c, b, m)
  }

  ghost predicate FromSome(c: Config, b: Backend, dir: Path, names: seq<Text>, depth: nat, m: Match)
    requires depth <= MAX_BACKEND_WALK_DEPTH
  {
    exists name :: name in names && m in BackendEntryMatches(c, b, dir + [name], depth)
  }

  lemma {:induction false} NamesMatchesMembers(c: Config, b: Backend, dir: Path, names: seq<Text>, depth: nat, m: Match)
    requires depth <= MAX_BACKEND_WALK_DEPTH
    ensures m in BackendNamesMatches(c, b, dir, names, depth) <==> FromSome(c, b, dir, names, depth, m)
    decreases |names|
  {
    if names != [] {
      NamesMatchesMembers(c, b, dir, names[1..], depth, m);
      assert names[0] in names && forall n :: n in names[1..] ==> n in names;
      if FromSome(c, b, dir, names, depth, m) {
        var name :| name in names && m in BackendEntryMatches(c, b, dir + [name], depth);
        assert name == names[0] || name in names[1..];
      }
    }
  }

  /** On any backend the full list holds exactly the matching lines of the text files its listings reach
      within the depth limit, past no forbidden path. */
  lemma {:induction false} BackendMatchesExactly(c: Config, b: Backend, dir: Path, depth: nat, m: Match)
    ensures m in BackendMatches(c, b, dir, depth) <==>
      Below(m.file, dir) && Reaches(c, b, dir, m.file[|dir|..], depth) && BackendReports(c, b, m)
    decreases MAX_BACKEND_WALK_DEPTH + 1 - depth, 1
  {
    hide BackendReports;
    if depth <= MAX_BACKEND_WALK_DEPTH && b.list(dir).Some? {
      var names := b.list(dir).value;
      NamesMatchesMembers(c, b, dir, names, depth, m);
      forall name | name in names
        ensures m in BackendEntryMatches(c, b, dir + [name], depth) <==>
                BackendReportedAt(c, b, dir + [name], depth, m)
        ensures Below(m.file, dir + [name]) <==> Below(m.file, dir) && |m.file| > |dir| && m.file[|dir|] == name
        ensures Below(m.file, dir + [name]) ==>
                m.file[|dir|..] != [] && m.file[|dir|..][0] == name && m.file[|dir|..][1..] == m.file[|dir + [name]|..]
      {
        BackendEntryExactly(c, b, dir + [name], depth, m);
        StepBelow(m.file, dir, name);
      }
    }
  }

  lemma {:induction false} BackendEntryExactly(c: Config, b: Backend, path: Path, depth: nat, m: Match)
    requires depth <= MAX_BACKEND_WALK_DEPTH
    ensures m in BackendEntryMatches(c, b, path, depth) <==> BackendReportedAt(c, b, path, depth, m)
    decreases MAX_BACKEND_WALK_DEPTH + 1 - depth, 0
  {
    if !c.forbidden(path) && b.stat(path).Some? {
      var st := b.stat(path).value;
      if st.isDirectory {
        BackendMatchesExactly(c, b, path, depth + 1, m);
      } else {
        BackendFileExactly(c, b, path, st.size, m);
        if Below(m.file, path) && m.file[|path|..] == [] { assert m.file == path; }
        if m.file == path { assert m.file[|path|..] == [] && Below(m.file, path); }
      }
    }
  }

  lemma BackendFileExactly(c: Config, b: Backend, path: Path, size: int, m: Match)
    ensures m in BackendFileMatches(c, b, path, size) <==>
      && m.file == path && size <= c.maxFileSize && b.read(path).Some? && Textual(b.read(path).value)
      && Reports(c, path, SplitLines(b.read(path).value), 0, m)
  {
    if b.read(path).Some? { LineMatchesExactly(c, path, SplitLines(b.read(path).value), 0, m); }
  }

  // ---- When both searches find the same -----------------------------------------------------------

  function Names(listing: Listing): seq<Text> {
    match listing
    case End => []
    case Entry(name, _, rest) => [name] + Names(rest)
  }

  /** The backend stands for the tree: the same names in the same order, and the decoded contents. */
  ghost predicate Mirrors(c: Config, b: Backend, dir: Path, contents: Option<Listing>)
    decreases contents
  {
    match contents
    case None => b.list(dir).None?
    case Some(listing) => b.list(dir) == Some(Names(listing)) && NoDup(Names(listing)) && MirrorsEntries(c, b, dir, listing)
  }

  ghost predicate MirrorsEntries(c: Config, b: Backend, dir: Path, listing: Listing)
    decreases listing
  {
    match listing
    case End => true
    case Entry(name, node, rest) => MirrorsNode(c, b, dir + [name], node) && MirrorsEntries(c, b, dir, rest)
  }

  ghost predicate MirrorsNode(c: Config, b: Backend, path: Path, node: Node)
    decreases node
  {
    && b.stat(path).Some?
    && b.stat(path).value.isDirectory == node.Directory? && b.stat(path).value.isFile == node.File?
    && match node
       case Directory(contents) => Mirrors(c, b, path, contents)
       case File(Some(bytes)) => b.stat(path).value.size == |bytes| && b.read(path) == Some(c.decode(bytes))
       case File(None) => b.read(path) == None
       case Other => true
  }

  /** Some line of the file matches. */
  ghost predicate HasMatch(c: Config, bytes: seq<Byte>) {
    exists k :: 0 <= k < |SplitLines(c.decode(bytes))| && c.matcher(SplitLines(c.decode(bytes))[k])
  }

  /** What the file holds is no reason for one search to report it and not the other. */
  ghost predicate SeenAlike(c: Config, below: Path, bytes: seq<Byte>, depth: int) {
    |bytes| <= c.maxFileSize && HasMatch(c, bytes) ==>
      (!IsBinary(bytes) <==> Textual(c.decode(bytes)) && |below| + depth <= MAX_BACKEND_WALK_DEPTH + 1)
  }

  ghost predicate AllSeenAlike(c: Config, dir: Path, listing: Listing, depth: int) {
    forall below, bytes :: Holds(c, dir, listing, below, bytes) ==> SeenAlike(c, below, bytes, depth)
  }

  lemma {:induction false} HeldIsNamed(c: Config, dir: Path, listing: Listing, below: Path, bytes: seq<Byte>)
    requires Holds(c, dir, listing, below, bytes)
    ensures below != [] && below[0] in Names(listing)
    decreases listing
  {
    if Holds(c, dir, listing.rest, below, bytes) { HeldIsNamed(c, dir, listing.rest, below, bytes); }
  }

  /** A path leads to one file. */
  lemma {:induction false} HeldOnce(c: Config, b: Backend, dir: Path, listing: Listing, below: Path, x: seq<Byte>, y: seq<Byte>)
    requires MirrorsEntries(c, b, dir, listing) && NoDup(Names(listing))
    requires Holds(c, dir, listing, below, x) && Holds(c, dir, listing, below, y)
    ensures x == y
    decreases listing
  {
    var Entry(name, node, rest) := listing;
    DisjointParts([name], Names(rest));
    assert name in [name];
    if Holds(c, dir, rest, below, x) { HeldIsNamed(c, dir, rest, below, x); }
    if Holds(c, dir, rest, below, y) { HeldIsNamed(c, dir, rest, below, y); }
    if below[0] != name {
      HeldOnce(c, b, dir, rest, below, x, y);
    } else if node.Directory? {
      assert MirrorsNode(c, b, dir + [name], node) && Mirrors(c, b, dir + [name], node.listing);
      HeldOnce(c, b, dir + [name], node.listing.value, below[1..], x, y);
    }
  }

  /** The backend reaches a held file within the depth limit, and answers for it. */
  lemma {:induction false} HeldIsReached(c: Config, b: Backend, dir: Path, listing: Listing, names: seq<Text>, below: Path, bytes: seq<Byte>, depth: nat)
    requires MirrorsEntries(c, b, dir, listing) && Holds(c, dir, listing, below, bytes)
    requires b.list(dir) == Some(names) && forall n :: n in Names(listing) ==> n in names
    ensures Reaches(c, b, dir, below, depth) <==> |below| + depth <= MAX_BACKEND_WALK_DEPTH + 1
    ensures b.stat(dir + below).Some? && b.stat(dir + below).value.size == |bytes|
    ensures b.read(dir + below) == Some(c.decode(bytes))
    decreases listing
  {
    var Entry(name, node, rest) := listing;
    HeldIsNamed(c, dir, listing, below, bytes);
    if Holds(c, dir, rest, below, bytes) {
      HeldIsReached(c, b, dir, rest, names, below, bytes, depth);
    } else {
      assert name in Names(listing);
      assert below == [name] + below[1..] && dir + below == (dir + [name]) + below[1..];
      assert MirrorsNode(c, b, dir + [name], node);
      if node.Directory? {
        var inner := node.listing.value;
        assert Mirrors(c, b, dir + [name], node.listing);
        HeldIsNamed(c, dir + [name], inner, below[1..], bytes);
        HeldIsReached(c, b, dir + [name], inner, Names(inner), below[1..], bytes, depth + 1);
      } else {
        assert (dir + [name]) + below[1..] == dir + [name];
      }
    }
  }

  /** The line of a held file that both searches would report. */
  function Witness(c: Config, file: Path, bytes: seq<Byte>, k: nat): Match
    requires k < |SplitLines(c.decode(bytes))|
  {
    Match(file, k + 1, Preview(SplitLines(c.decode(bytes))[k]))
  }

  lemma BothReport(c: Config, b: Backend, scope: Path, listing: Listing, below: Path, bytes: seq<Byte>)
    requires Mirrors(c, b, scope, Some(listing)) && Holds(c, scope, listing, below, bytes)
    requires BackendMatches(c, b, scope, 0) == AllMatches(c, scope, listing)
    ensures SeenAlike(c, below, bytes, 0)
  {
    if |bytes| <= c.maxFileSize && HasMatch(c, bytes) {
      var k :| 0 <= k < |SplitLines(c.decode(bytes))| && c.matcher(SplitLines(c.decode(bytes))[k]);
      var file := scope + below;
      var m := Witness(c, file, bytes, k);
      PreviewIs(SplitLines(c.decode(bytes))[k], m.preview);
      assert file[|scope|..] == below && Below(file, scope);
      assert Reports(c, file, SplitLines(c.decode(bytes)), 0, m);
      AllMatchesExactly(c, scope, listing, m);
      BackendMatchesExactly(c, b, scope, 0, m);
      HeldIsReached(c, b, scope, listing, Names(listing), below, bytes, 0);
      forall y | Holds(c, scope, listing, below, y) ensures y == bytes {
        HeldOnce(c, b, scope, listing, below, bytes, y);
      }
      assert m in AllMatches(c, scope, listing) <==> ReportsFile(c, bytes, m);
      assert m in BackendMatches(c, b, scope, 0) <==>
        |below| <= MAX_BACKEND_WALK_DEPTH + 1 && Textual(c.decode(bytes));
    }
  }

  lemma {:induction false} NoMatchNoLines(c: Config, file: Path, lines: seq<Text>, from: nat)
    requires forall k :: 0 <= k < |lines| ==> !c.matcher(lines[k])
    ensures LineMatches(c, file, lines, from) == []
    decreases |lines|
  {
    if lines != [] {
      assert forall k :: 0 <= k < |lines| - 1 ==> lines[1..][k] == lines[k + 1];
      NoMatchNoLines(c, file, lines[1..], from + 1);
    }
  }

  lemma SameFileMatches(c: Config, b: Backend, path: Path, name: Text, bytes: Option<seq<Byte>>, depth: nat)
    requires MirrorsNode(c, b, path, File(bytes)) && depth <= MAX_BACKEND_WALK_DEPTH
    requires bytes.Some? ==> SeenAlike(c, [name], bytes.value, depth)
    ensures BackendFileMatches(c, b, path, b.stat(path).value.size) == FileMatches(c, path, bytes)
  {
    if bytes.Some? && !HasMatch(c, bytes.value) {
      NoMatchNoLines(c, path, SplitLines(c.decode(bytes.value)), 0);
    }
  }

  lemma ReportedHasMatch(c: Config, bytes: seq<Byte>, m: Match)
    ensures ReportsFile(c, bytes, m) ==> |bytes| <= c.maxFileSize && HasMatch(c, bytes) && !IsBinary(bytes)
  {
    if ReportsFile(c, bytes, m) { assert c.matcher(SplitLines(c.decode(bytes))[m.line - 1]); }
  }

  lemma TooDeepFindsNothing(c: Config, dir: Path, listing: Listing)
    requires AllSeenAlike(c, dir, listing, MAX_BACKEND_WALK_DEPTH + 1)
    ensures AllMatches(c, dir, listing) == []
  {
    hide ReportsFile;
    forall m ensures m !in AllMatches(c, dir, listing) {
      AllMatchesExactly(c, dir, listing, m);
      forall bytes | Holds(c, dir, listing, m.file[Min(|dir|, |m.file|)..], bytes) ensures !ReportsFile(c, bytes, m) {
        HeldIsNamed(c, dir, listing, m.file[Min(|dir|, |m.file|)..], bytes);
        ReportedHasMatch(c, bytes, m);
        assert SeenAlike(c, m.file[Min(|dir|, |m.file|)..], bytes, MAX_BACKEND_WALK_DEPTH + 1);
      }
    }
    HasMember(AllMatches(c, dir, listing));
  }

  lemma InnerSeenAlike(c: Config, dir: Path, listing: Listing, depth: nat)
    requires listing.Entry? && AllSeenAlike(c, dir, listing, depth)
    ensures AllSeenAlike(c, dir, listing.rest, depth)
    ensures !c.forbidden(dir + [listing.name]) ==>
      match listing.node
      case Directory(Some(inner)) => AllSeenAlike(c, dir + [listing.name], inner, depth + 1)
      case File(Some(bytes)) => SeenAlike(c, [listing.name], bytes, depth)
      case _ => true
  {
    hide SeenAlike;
    var Entry(name, node, rest) := listing;
    forall below, bytes | Holds(c, dir, rest, below, bytes) ensures SeenAlike(c, below, bytes, depth) {
      assert Holds(c, dir, listing, below, bytes);
    }
    if !c.forbidden(dir + [name]) {
      match node
      case Directory(Some(inner)) =>
        forall below, bytes | Holds(c, dir + [name], inner, below, bytes) ensures SeenAlike(c, below, bytes, depth + 1) {
          OneDeeper(c, name, below, bytes, depth);
          assert ([name] + below)[1..] == below;
          assert Holds(c, dir, listing, [name] + below, bytes);
        }
      case File(Some(bytes)) =>
        assert [name][1..] == [];
        assert Holds(c, dir, listing, [name], bytes);
      case _ =>
    }
  }

  lemma OneDeeper(c: Config, name: Text, below: Path, bytes: seq<Byte>, depth: nat)
    ensures SeenAlike(c, [name] + below, bytes, depth) <==> SeenAlike(c, below, bytes, depth + 1)
  {
  }

  lemma {:induction false} SameMatches(c: Config, b: Backend, dir: Path, listing: Listing, depth: nat)
    requires MirrorsEntries(c, b, dir, listing) && AllSeenAlike(c, dir, listing, depth)
    requires depth <= MAX_BACKEND_WALK_DEPTH
    ensures BackendNamesMatches(c, b, dir, Names(listing), depth) == AllMatches(c, dir, listing)
    decreases listing
  {
    hide AllSeenAlike, SeenAlike;
    if listing.Entry? {
      var Entry(name, node, rest) := listing;
      var names := Names(listing);
      assert names[0] == name && names[1..] == Names(rest);
      InnerSeenAlike(c, dir, listing, depth);
      SameMatches(c, b, dir, rest, depth);
      SameEntryMatches(c, b, dir, listing, depth);
    }
  }

  lemma {:induction false} SameEntryMatches(c: Config, b: Backend, dir: Path, listing: Listing, depth: nat)
    requires listing.Entry? && MirrorsEntries(c, b, dir, listing) && AllSeenAlike(c, dir, listing, depth)
    requires depth <= MAX_BACKEND_WALK_DEPTH
    ensures BackendEntryMatches(c, b, dir + [listing.name], depth) == EntryMatches(c, dir + [listing.name], listing.node)
    decreases listing, 0
  {
    hide AllSeenAlike;
    var path, node := dir + [listing.name], listing.node;
    assert MirrorsNode(c, b, path, node);
    InnerSeenAlike(c, dir, listing, depth);
    if !c.forbidden(path) {
      match node
      case Directory(Some(inner)) =>
        assert Mirrors(c, b, path, node.listing);
        if depth < MAX_BACKEND_WALK_DEPTH {
          SameMatches(c, b, path, inner, depth + 1);
        } else {
          TooDeepFindsNothing(c, path, inner);
        }
      case File(bytes) =>
        if bytes.Some? { assert SeenAlike(c, [listing.name], bytes.value, depth); }
        SameFileMatches(c, b, path, listing.name, bytes, depth);
      case _ =>
    }
  }

  /** On a mirrored tree both searches list the same matches in the same order exactly when, for every file
      of acceptable size with a matching line, the bytes and the decoded characters agree on whether it is
      text, and text files lie within the depth limit. */
  lemma SearchesAgreeIff(c: Config, b: Backend, scope: Path, listing: Listing)
    requires Mirrors(c, b, scope, Some(listing))
    ensures BackendMatches(c, b, scope, 0) == AllMatches(c, scope, listing) <==> AllSeenAlike(c, scope, listing, 0)
  {
    hide SeenAlike;
    if AllSeenAlike(c, scope, listing, 0) {
      SameMatches(c, b, scope, listing, 0);
    }
    if BackendMatches(c, b, scope, 0) == AllMatches(c, scope, listing) {
      forall below, bytes | Holds(c, scope, listing, below, bytes) ensures SeenAlike(c, below, bytes, 0) {
        BothReport(c, b, scope, listing, below, bytes);
      }
    }
  }

  /** A search with a larger limit only adds matches behind the ones it already gave. */
  lemma LargerLimitExtends(all: seq<Match>, small: int, large: int)
    requires small <= large
    ensures CutShort(all, small).matches <= CutShort(all, large).matches
    ensures !CutShort(all, small).truncated ==> CutShort(all, large).matches == all == CutShort(all, small).matches
  {
  }
}
