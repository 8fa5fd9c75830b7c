/** The patch tool: the whole patch is planned against the initial file system, then executed. */
module ApplyPatch {
  import opened Sequences

  datatype Chunk = Chunk(context: Option<string>, oldLines: seq<string>, newLines: seq<string>, eof: bool)

  datatype Hunk =
    | Add(path: string, content: string)
    | Delete(path: string)
    | Update(path: string, movePath: Option<string>, chunks: seq<Chunk>)

  datatype Error =
    | ParseError
    | DuplicateTarget(path: string)
    | PathTraversal(path: string)
    | ForbiddenPath(path: string)
    | FileExists(path: string)
    | NotFound(path: string)
    | PatchFailed(path: string)
    | IoError

  datatype Scope = Resolved(abs: string) | Refused(error: Error)

  datatype Result<+T> = Ok(value: T) | Err(error: Error)

  /** What comes of matching the chunks against a file's content. Reading it or matching can also raise some
      other error. */
  datatype MatchResult = Matched(text: string) | Mismatched | Raised

  type Guard = string -> Scope

  type Matcher = (string, string, seq<Chunk>) -> MatchResult

  /** What the tool calls and this model leaves open: the parser, the path guard and the matcher of
      update chunks. The guard answers the same throughout one patch. */
  datatype Tools = Tools(
    parse: string -> Option<seq<Hunk>>,
    scope: Guard,
    update: Matcher)

  /** A flat file system: resolved path to content. */
  type Files = map<string, string>

  datatype FsOp = Write(abs: string, content: string) | Rm(abs: string)

  datatype Plan = Plan(ops: seq<FsOp>, patched: seq<string>)

  // ---- What planning and executing compute ----------------------------------------------------

  /** An empty destination does not count as a move. */
  predicate Moves(h: Hunk) { h.Update? && h.movePath.Some? && h.movePath.value != "" }

  function Targets(h: Hunk): (r: seq<string>)
    ensures r != [] && r[0] == h.path && |r| <= 2
  {
    if Moves(h) then [h.path, h.movePath.value] else [h.path]
  }

  function AllTargets(hunks: seq<Hunk>): seq<string> {
    if hunks == [] then [] else Targets(hunks[0]) + AllTargets(hunks[1..])
  }

  /** The name reported for a hunk: the destination whenever there is one, even an empty one. */
  function PatchedName(h: Hunk): string {
    if h.Update? && h.movePath.Some? then h.movePath.value else h.path
  }

  function PlanHunk(tools: Tools, files: Files, h: Hunk): Result<seq<FsOp>> {
    match tools.scope(h.path)
    case Refused(e) => Err(e)
    case Resolved(abs) =>
      match h
      case Add(path, content) =>
        if abs in files then Err(FileExists(path)) else Ok([Write(abs, content)])
      case Delete(path) =>
        if abs !in files then Err(NotFound(path)) else Ok([Rm(abs)])
      case Update(path, _, chunks) =>
        if abs !in files then Err(NotFound(path))
        else match tools.update(files[abs], path, chunks)
          case Mismatched => Err(PatchFailed(path))
          case Raised => Err(IoError)
          case Matched(updated) =>
            if !Moves(h) then Ok([Write(abs, updated)])
            else match tools.scope(h.movePath.value)
              case Refused(e) => Err(e)
              case Resolved(dest) => Ok([Write(dest, updated), Rm(abs)])
  }

  /** Every hunk planned against the same files; the first failure wins. */
  function PlanAll(tools: Tools, files: Files, hunks: seq<Hunk>): Result<Plan> {
    if hunks == [] then Ok(Plan([], []))
    else
      match PlanHunk(tools, files, hunks[0])
      case Err(e) => Err(e)
      case Ok(ops) =>
        match PlanAll(tools, files, hunks[1..])
        case Err(e) => Err(e)
        case Ok(rest) => Ok(Plan(ops + rest.ops, [PatchedName(hunks[0])] + rest.patched))
  }

  function ExecOp(files: Files, op: FsOp): Files {
    match op
    case Write(abs, content) => files[abs := content]
    case Rm(abs) => files - {abs}
  }

  function Exec(files: Files, ops: seq<FsOp>): Files
    decreases |ops|
  {
    if ops == [] then files else Exec(ExecOp(files, ops[0]), ops[1..])
  }

  /** The final files and the reported names; the error of a patch that wrote nothing; or the files an
      input/output error in the middle of writing left behind. */
  datatype Outcome =
    | Patched(files: Files, names: seq<string>)
    | Failed(error: Error)
    | Interrupted(files: Files)

  /** Planning everything first and then writing without a fault. */
  function ApplyAtomically(tools: Tools, files: Files, hunks: seq<Hunk>): Outcome {
    match PlanAll(tools, files, hunks)
    case Err(e) => Failed(e)
    case Ok(plan) => Patched(Exec(files, plan.ops), plan.patched)
  }

  /** The reference: each hunk is planned and executed on the files the previous one left. */
  function ApplyOneByOne(tools: Tools, files: Files, hunks: seq<Hunk>): Outcome
    decreases |hunks|
  {
    if hunks == [] then Patched(files, [])
    else
      match PlanHunk(tools, files, hunks[0])
      case Err(e) => Failed(e)
      case Ok(ops) =>
        match ApplyOneByOne(tools, Exec(files, ops), hunks[1..])
        case Patched(final, names) => Patched(final, [PatchedName(hunks[0])] + names)
        case other => other
  }

  // ---- Plan-then-execute refines one-by-one -----------------------------------------------------

  /** What a target stands for: the resolved path, or itself when the guard refuses it. */
  datatype Key = Abs(abs: string) | Raw(path: string)

  function KeyOf(tools: Tools, target: string): Key {
    match tools.scope(target)
    case Resolved(abs) => Abs(abs)
    case Refused(_) => Raw(target)
  }

  function KeysOf(tools: Tools, targets: seq<string>): (r: seq<Key>)
    ensures |r| == |targets| && forall i :: 0 <= i < |r| ==> r[i] == KeyOf(tools, targets[i])
  {
    seq(|targets|, i requires 0 <= i < |targets| => KeyOf(tools, targets[i]))
  }

  ghost function HunkKeys(tools: Tools, h: Hunk): set<Key> { ToSet(KeysOf(tools, Targets(h))) }

  ghost function PatchKeys(tools: Tools, hunks: seq<Hunk>): set<Key> {
    set h, k | h in hunks && k in HunkKeys(tools, h) :: k
  }

  /** No file is touched twice, under whatever spelling. */
  ghost predicate DistinctTargets(tools: Tools, hunks: seq<Hunk>) {
    && (forall h :: h in hunks ==> NoDup(KeysOf(tools, Targets(h))))
    && (forall i, j :: 0 <= i < j < |hunks| ==> HunkKeys(tools, hunks[i]) !! HunkKeys(tools, hunks[j]))
  }

  /** Two file systems that the planning of a hunk cannot tell apart: its own file exists in both or in
      neither, and has one content if the hunk looks at it. */
  ghost predicate ReadsAlike(tools: Tools, a: Files, b: Files, h: Hunk) {
    match tools.scope(h.path)
    case Refused(_) => true
    case Resolved(abs) => (abs in a <==> abs in b) && (h.Update? && abs in a ==> a[abs] == b[abs])
  }

  /** Hunk `h` can be planned as if `g` in front of it had not been executed: `g` does not touch the file
      of `h`, or it updates it in place and `h` only asks whether it exists. */
  ghost predicate CanFollow(tools: Tools, g: Hunk, h: Hunk) {
    KeyOf(tools, h.path) !in HunkKeys(tools, g) || (g.Update? && !Moves(g) && !h.Update?)
  }

  ghost predicate Followable(tools: Tools, hunks: seq<Hunk>) {
    forall i, j :: 0 <= i < j < |hunks| ==> CanFollow(tools, hunks[i], hunks[j])
  }

  ghost function Touched(ops: seq<FsOp>): set<Key> { set op | op in ops :: Abs(op.abs) }

  lemma {:induction false} ExecAppend(files: Files, first: seq<FsOp>, second: seq<FsOp>)
    ensures Exec(files, first + second) == Exec(Exec(files, first), second)
    decreases |first|
  {
    if first == [] {
      assert first + second == second;
    } else {
      assert (first + second)[1..] == first[1..] + second;
      ExecAppend(ExecOp(files, first[0]), first[1..], second);
    }
  }

  /** Executing operations changes only the paths they name. */
  lemma {:induction false} ExecFrame(files: Files, ops: seq<FsOp>, p: string)
    requires Abs(p) !in Touched(ops)
    ensures p in Exec(files, ops) <==> p in files
    ensures p in files ==> Exec(files, ops)[p] == files[p]
    decreases |ops|
  {
    if ops != [] {
      assert ops[0] in ops;
      assert Touched(ops[1..]) <= Touched(ops);
      ExecFrame(ExecOp(files, ops[0]), ops[1..], p);
    }
  }

  lemma PlanTouchesTargets(tools: Tools, files: Files, h: Hunk)
    requires PlanHunk(tools, files, h).Ok?
    ensures Touched(PlanHunk(tools, files, h).value) == HunkKeys(tools, h)
  {
    var keys := KeysOf(tools, Targets(h));
    assert keys[0] == KeyOf(tools, h.path) && keys[0] in keys;
    if Moves(h) {
      assert keys[1] == KeyOf(tools, h.movePath.value) && keys[1] in keys;
    }
  }

  /** A hunk's plan reads only the hunk's own file. */
  lemma PlanReadsTargets(tools: Tools, a: Files, b: Files, h: Hunk)
    requires ReadsAlike(tools, a, b, h)
    ensures PlanHunk(tools, a, h) == PlanHunk(tools, b, h)
  {
  }

  /** Executing `g` leaves alone what the planning of a hunk that can follow it looks at. */
  lemma FollowerReadsAlike(tools: Tools, planned: Files, files: Files, g: Hunk, h: Hunk)
    requires PlanHunk(tools, files, g).Ok? && CanFollow(tools, g, h) && ReadsAlike(tools, planned, files, h)
    ensures ReadsAlike(tools, planned, Exec(files, PlanHunk(tools, files, g).value), h)
  {
    var ops := PlanHunk(tools, files, g).value;
    PlanTouchesTargets(tools, files, g);
    if tools.scope(h.path).Resolved? {
      var abs := tools.scope(h.path).abs;
      if Abs(abs) !in HunkKeys(tools, g) {
        ExecFrame(files, ops, abs);
      } else {
        assert ops == [ops[0]];
        ExecOne(files, ops[0]);
      }
    }
  }

  lemma DistinctTail(tools: Tools, hunks: seq<Hunk>)
    requires DistinctTargets(tools, hunks) && hunks != []
    ensures DistinctTargets(tools, hunks[1..])
    ensures HunkKeys(tools, hunks[0]) !! PatchKeys(tools, hunks[1..])
    ensures PatchKeys(tools, hunks[1..]) <= PatchKeys(tools, hunks)
    ensures HunkKeys(tools, hunks[0]) <= PatchKeys(tools, hunks)
  {
    forall k | k in PatchKeys(tools, hunks[1..]) ensures k !in HunkKeys(tools, hunks[0]) {
      var h :| h in hunks[1..] && k in HunkKeys(tools, h);
      var j :| 0 <= j < |hunks| - 1 && hunks[1..][j] == h;
      assert HunkKeys(tools, hunks[0]) !! HunkKeys(tools, hunks[j + 1]);
    }
    assert hunks[0] in hunks;
  }

  lemma DistinctIsFollowable(tools: Tools, hunks: seq<Hunk>)
    requires DistinctTargets(tools, hunks)
    ensures Followable(tools, hunks)
  {
    forall i, j | 0 <= i < j < |hunks| ensures CanFollow(tools, hunks[i], hunks[j]) {
      var keys := KeysOf(tools, Targets(hunks[j]));
      assert keys[0] == KeyOf(tools, hunks[j].path) && keys[0] in HunkKeys(tools, hunks[j]);
      assert HunkKeys(tools, hunks[i]) !! HunkKeys(tools, hunks[j]);
    }
  }

  /** The plan made on `planned` and executed on `files` is the hunk-by-hunk result on `files`, as long
      as every hunk can follow those in front of it and the two look alike to all of them. */
  lemma {:induction false} PlanMatchesOneByOne(tools: Tools, planned: Files, files: Files, hunks: seq<Hunk>)
    requires Followable(tools, hunks) && forall h :: h in hunks ==> ReadsAlike(tools, planned, files, h)
    ensures match PlanAll(tools, planned, hunks)
      case Ok(plan) => ApplyOneByOne(tools, files, hunks) == Patched(Exec(files, plan.ops), plan.patched)
      case Err(e) => ApplyOneByOne(tools, files, hunks) == Failed(e)
    decreases |hunks|
  {
    if hunks != [] {
      var g, rest := hunks[0], hunks[1..];
      assert g in hunks;
      PlanReadsTargets(tools, planned, files, g);
      match PlanHunk(tools, files, g) {
        case Err(e) =>
        case Ok(ops) =>
          forall h | h in rest ensures ReadsAlike(tools, planned, Exec(files, ops), h) {
            var j :| 0 <= j < |rest| && rest[j] == h;
            assert CanFollow(tools, hunks[0], hunks[j + 1]) && hunks[j + 1] in hunks;
            FollowerReadsAlike(tools, planned, files, g, h);
          }
          assert forall i, j :: 0 <= i < j < |rest| ==> rest[i] == hunks[i + 1] && rest[j] == hunks[j + 1];
          PlanMatchesOneByOne(tools, planned, Exec(files, ops), rest);
          if PlanAll(tools, planned, rest).Ok? {
            ExecAppend(files, ops, PlanAll(tools, planned, rest).value.ops);
          }
      }
    }
  }

  // ---- The exact condition for two hunks ----------------------------------------------------------

  ghost predicate AgreesOn(tools: Tools, update: Matcher, files: Files, hunks: seq<Hunk>) {
    ApplyAtomically(tools.(update := update), files, hunks) == ApplyOneByOne(tools.(update := update), files, hunks)
  }

  /** Planning first is the same as hunk by hunk, whatever the files hold and the matcher makes of them. */
  ghost predicate AgreesAlways(tools: Tools, hunks: seq<Hunk>) {
    forall update, files :: AgreesOn(tools, update, files, hunks)
  }

  ghost predicate Resolves(tools: Tools, h: Hunk) { forall t :: t in Targets(h) ==> tools.scope(t).Resolved? }

  lemma OneAfterTheOther(tools: Tools, files: Files, g: Hunk, h: Hunk)
    requires PlanHunk(tools, files, g).Ok?
    ensures ApplyAtomically(tools, files, [g, h]).Patched? <==> PlanHunk(tools, files, h).Ok?
    ensures ApplyOneByOne(tools, files, [g, h]).Patched?
      <==> PlanHunk(tools, Exec(files, PlanHunk(tools, files, g).value), h).Ok?
  {
    assert [g, h][1..] == [h] && [h][1..] == [];
    assert PlanAll(tools, files, []).Ok?;
    assert PlanAll(tools, files, [h]).Ok? <==> PlanHunk(tools, files, h).Ok?;
    assert PlanAll(tools, files, [g, h]).Ok? <==> PlanAll(tools, files, [h]).Ok?;
    var after := Exec(files, PlanHunk(tools, files, g).value);
    assert ApplyOneByOne(tools, after, [h]).Patched? <==> PlanHunk(tools, after, h).Ok?;
  }

  /** The hunk's file was there and is gone, or was not there and is: the plan notices, or the execution. */
  lemma ExistenceDecides(tools: Tools, a: Files, b: Files, h: Hunk)
    requires Resolves(tools, h) && (forall c, p, chunks :: tools.update(c, p, chunks).Matched?)
    requires tools.scope(h.path).abs in a <==> tools.scope(h.path).abs !in b
    ensures PlanHunk(tools, a, h).Ok? <==> !PlanHunk(tools, b, h).Ok?
  {
  }

  lemma OwnFileTouched(tools: Tools, g: Hunk, h: Hunk)
    requires Resolves(tools, g) && Resolves(tools, h) && KeyOf(tools, h.path) in HunkKeys(tools, g)
    ensures tools.scope(h.path) == tools.scope(g.path) || (Moves(g) && tools.scope(h.path) == tools.scope(g.movePath.value))
  {
    KeysComeFromTargets(tools, g, KeyOf(tools, h.path));
  }

  lemma UpdateTwiceDisagrees(tools: Tools, g: Hunk, h: Hunk)
    requires Resolves(tools, g) && Resolves(tools, h) && g.Update? && !Moves(g) && h.Update?
    requires tools.scope(h.path) == tools.scope(g.path)
    ensures !AgreesAlways(tools, [g, h])
  {
    var once: Matcher := (c, p, chunks) => if c == "" then Matched("x") else Mismatched;
    var t, abs := tools.(update := once), tools.scope(g.path).abs;
    var files: Files := map[abs := ""];
    ExecOne(files, Write(abs, "x"));
    assert PlanHunk(t, files, g) == Ok([Write(abs, "x")]);
    OneAfterTheOther(t, files, g, h);
    assert !AgreesOn(tools, once, files, [g, h]);
  }

  lemma ChangedExistenceDisagrees(tools: Tools, g: Hunk, h: Hunk)
    requires Resolves(tools, g) && Resolves(tools, h) && KeyOf(tools, h.path) in HunkKeys(tools, g)
    requires !g.Update? || Moves(g)
    ensures !AgreesAlways(tools, [g, h])
  {
    var always: Matcher := (c, p, chunks) => Matched("x");
    var t, own := tools.(update := always), tools.scope(g.path).abs;
    var files: Files := if g.Add? then map[] else map[own := ""];
    var ops := PlanHunk(t, files, g).value;
    OwnFileTouched(tools, g, h);
    if Moves(g) {
      var dest := tools.scope(g.movePath.value).abs;
      assert ops == [Write(dest, "x"), Rm(own)];
      ExecTwo(files, ops[0], ops[1]);
    } else {
      assert ops == [ops[0]];
      ExecOne(files, ops[0]);
    }
    ExistenceDecides(t, files, Exec(files, ops), h);
    OneAfterTheOther(t, files, g, h);
    assert !AgreesOn(tools, always, files, [g, h]);
  }

  /** Two hunks with resolved targets, planned together, do what they do one by one for all files and all
      matchers exactly when the second can follow the first. */
  lemma TwoHunksAgreeIff(tools: Tools, g: Hunk, h: Hunk)
    requires Resolves(tools, g) && Resolves(tools, h)
    ensures AgreesAlways(tools, [g, h]) <==> CanFollow(tools, g, h)
  {
    if CanFollow(tools, g, h) {
      forall update: Matcher, files ensures AgreesOn(tools, update, files, [g, h]) {
        var t := tools.(update := update);
        assert HunkKeys(t, g) == HunkKeys(tools, g);
        PlanMatchesOneByOne(t, files, files, [g, h]);
      }
    } else if g.Update? && !Moves(g) {
      OwnFileTouched(tools, g, h);
      UpdateTwiceDisagrees(tools, g, h);
    } else {
      ChangedExistenceDisagrees(tools, g, h);
    }
  }

  // ---- The exact condition for a whole patch ------------------------------------------------------

  /** What the hunks in front have done to a path, if they all succeeded. */
  datatype Effect =
    | Untouched
    | Edited  // updated in place
    | Made    // added, or moved there
    | Gone    // deleted, or moved away

  function EffectOf(scope: Guard, h: Hunk, before: Effect, p: string): Effect {
    if scope(h.path) == Resolved(p) then
      match h
      case Add(_, _) => Made
      case Delete(_) => Gone
      case Update(_, _, _) => if Moves(h) then Gone else if before.Untouched? then Edited else before
    else if Moves(h) && scope(h.movePath.value) == Resolved(p) then Made
    else before
  }

  function Effects(scope: Guard, hunks: seq<Hunk>, p: string): Effect {
    if hunks == [] then Untouched
    else EffectOf(scope, hunks[|hunks| - 1], Effects(scope, hunks[..|hunks| - 1], p), p)
  }

  /** Some hunk can only be planned if the file exists. */
  ghost predicate NeedsFile(scope: Guard, hunks: seq<Hunk>, p: string) {
    exists h :: h in hunks && !h.Add? && scope(h.path) == Resolved(p)
  }

  /** Some hunk can only be planned if it does not. */
  ghost predicate NeedsNone(scope: Guard, hunks: seq<Hunk>, p: string) {
    exists h :: h in hunks && h.Add? && scope(h.path) == Resolved(p)
  }

  ghost predicate Satisfiable(scope: Guard, hunks: seq<Hunk>) {
    forall p :: !(NeedsFile(scope, hunks, p) && NeedsNone(scope, hunks, p))
  }

  /** Hunk `h` can be planned as if those in front had not been executed: they leave its file alone, or `h`
      only asks whether the file exists and that is as it was. */
  ghost predicate CanFollowAll(scope: Guard, front: seq<Hunk>, h: Hunk)
    requires scope(h.path).Resolved?
  {
    match Effects(scope, front, scope(h.path).abs)
    case Untouched => true
    case Edited => !h.Update?
    case Made => !h.Update? && NeedsFile(scope, front, scope(h.path).abs)
    case Gone => false
  }

  ghost predicate AllResolve(tools: Tools, hunks: seq<Hunk>) { forall h :: h in hunks ==> Resolves(tools, h) }

  ghost predicate FollowsAt(tools: Tools, hunks: seq<Hunk>, j: nat)
    requires AllResolve(tools, hunks) && j < |hunks|
  {
    assert hunks[j] in hunks && hunks[j].path in Targets(hunks[j]);
    Satisfiable(tools.scope, hunks[..j]) ==> CanFollowAll(tools.scope, hunks[..j], hunks[j])
  }

  /** Every hunk that can be reached at all can follow those in front of it. */
  ghost predicate PlansAhead(tools: Tools, hunks: seq<Hunk>)
    requires AllResolve(tools, hunks)
  {
    forall j :: 0 <= j < |hunks| ==> FollowsAt(tools, hunks, j)
  }

  /** How the files the plan was made on and those the hunks in front left hang together. */
  ghost predicate Tracks(scope: Guard, front: seq<Hunk>, files: Files, now: Files) {
    && (forall p :: NeedsFile(scope, front, p) ==> p in files)
    && (forall p :: NeedsNone(scope, front, p) ==> p !in files)
    && forall p :: TracksAt(Effects(scope, front, p), files, now, p)
  }

  ghost predicate TracksAt(effect: Effect, files: Files, now: Files, p: string) {
    match effect
    case Untouched => At(now, p) == At(files, p)
    case Edited => p in files && p in now
    case Made => p in now
    case Gone => p !in now
  }

  lemma OwnResolves(tools: Tools, h: Hunk)
    requires Resolves(tools, h)
    ensures tools.scope(h.path).Resolved?
  {
    assert h.path in Targets(h);
  }

  lemma FollowerReads(tools: Tools, front: seq<Hunk>, files: Files, now: Files, h: Hunk)
    requires tools.scope(h.path).Resolved? && CanFollowAll(tools.scope, front, h)
    requires Tracks(tools.scope, front, files, now)
    ensures PlanHunk(tools, files, h) == PlanHunk(tools, now, h)
  {
    var p := tools.scope(h.path).abs;
    assert TracksAt(Effects(tools.scope, front, p), files, now, p);
    PlanReadsTargets(tools, files, now, h);
  }

  /** What a planned hunk does to one path. */
  lemma HunkAt(tools: Tools, files: Files, now: Files, h: Hunk, before: Effect, p: string)
    requires Resolves(tools, h) && PlanHunk(tools, files, h).Ok? && PlanHunk(tools, files, h) == PlanHunk(tools, now, h)
    requires TracksAt(before, files, now, p)
    ensures TracksAt(EffectOf(tools.scope, h, before, p), files, Exec(now, PlanHunk(tools, now, h).value), p)
  {
    var ops := PlanHunk(tools, now, h).value;
    assert h.path in Targets(h);
    if Moves(h) {
      assert h.movePath.value in Targets(h) by { assert Targets(h)[1] == h.movePath.value; }
      assert ops == [ops[0], ops[1]];
      ExecTwo(now, ops[0], ops[1]);
    } else {
      assert ops == [ops[0]];
      ExecOne(now, ops[0]);
    }
  }

  lemma NeedsBehind(scope: Guard, front: seq<Hunk>, h: Hunk, p: string)
    ensures NeedsFile(scope, front + [h], p) <==> NeedsFile(scope, front, p) || (!h.Add? && scope(h.path) == Resolved(p))
    ensures NeedsNone(scope, front + [h], p) <==> NeedsNone(scope, front, p) || (h.Add? && scope(h.path) == Resolved(p))
    ensures Effects(scope, front + [h], p) == EffectOf(scope, h, Effects(scope, front, p), p)
  {
    assert h in front + [h] && forall g :: g in front ==> g in front + [h];
    assert (front + [h])[..|front|] == front;
  }

  lemma TracksStep(tools: Tools, front: seq<Hunk>, files: Files, now: Files, h: Hunk)
    requires Resolves(tools, h) && Tracks(tools.scope, front, files, now)
    requires PlanHunk(tools, files, h).Ok? && PlanHunk(tools, files, h) == PlanHunk(tools, now, h)
    ensures Tracks(tools.scope, front + [h], files, Exec(now, PlanHunk(tools, now, h).value))
  {
    hide TracksAt, Effects, EffectOf;
    assert h.path in Targets(h);
    forall p
      ensures NeedsFile(tools.scope, front + [h], p) ==> p in files
      ensures NeedsNone(tools.scope, front + [h], p) ==> p !in files
      ensures TracksAt(Effects(tools.scope, front + [h], p), files, Exec(now, PlanHunk(tools, now, h).value), p)
    {
      NeedsBehind(tools.scope, front, h, p);
      HunkAt(tools, files, now, h, Effects(tools.scope, front, p), p);
    }
  }

  lemma TrackedIsSatisfiable(scope: Guard, front: seq<Hunk>, files: Files, now: Files)
    requires Tracks(scope, front, files, now)
    ensures Satisfiable(scope, front)
  {
  }

  lemma HunkBetween(front: seq<Hunk>, rest: seq<Hunk>)
    requires rest != []
    ensures (front + rest)[..|front|] == front && (front + rest)[|front|] == rest[0]
    ensures (front + [rest[0]]) + rest[1..] == front + rest
  {
  }

  /** The plan of the rest, made on `files`, does on `now` what its hunks do there one by one. */
  lemma {:induction false} AheadMatches(tools: Tools, front: seq<Hunk>, rest: seq<Hunk>, files: Files, now: Files)
    requires AllResolve(tools, front + rest) && Tracks(tools.scope, front, files, now)
    requires forall j :: |front| <= j < |front + rest| ==> FollowsAt(tools, front + rest, j)
    ensures match PlanAll(tools, files, rest)
      case Ok(plan) =>
        && ApplyOneByOne(tools, now, rest) == Patched(Exec(now, plan.ops), plan.patched)
        && Tracks(tools.scope, front + rest, files, Exec(now, plan.ops))
      case Err(e) => ApplyOneByOne(tools, now, rest) == Failed(e)
    decreases |rest|
  {
    hide Tracks, Resolves;
    if rest == [] {
      assert front + rest == front;
    } else {
      var h := rest[0];
      HunkBetween(front, rest);
      assert FollowsAt(tools, front + rest, |front|);
      assert h in front + rest;
      OwnResolves(tools, h);
      TrackedIsSatisfiable(tools.scope, front, files, now);
      FollowerReads(tools, front, files, now, h);
      match PlanHunk(tools, now, h) {
        case Err(e) =>
        case Ok(ops) =>
          TracksStep(tools, front, files, now, h);
          AheadMatches(tools, front + [h], rest[1..], files, Exec(now, ops));
          if PlanAll(tools, files, rest[1..]).Ok? {
            ExecAppend(now, ops, PlanAll(tools, files, rest[1..]).value.ops);
          }
      }
    }
  }

  lemma NothingTracked(scope: Guard, files: Files)
    ensures Tracks(scope, [], files, files)
  {
  }

  // The files and the matcher that tell the two apart: the files the hunks in front need, all empty, and a
  // matcher that makes "x" of everything but refuses the hunk in question what is not empty any more.

  function Refuses(bad: string): Matcher {
    (c, p, chunks) => if p == bad && c != "" then Mismatched else Matched("x")
  }

  ghost function NeededPaths(tools: Tools, front: seq<Hunk>): set<string> {
    set h | h in front && !h.Add? && tools.scope(h.path).Resolved? :: tools.scope(h.path).abs
  }

  ghost function Needed(tools: Tools, front: seq<Hunk>): Files { map p | p in NeededPaths(tools, front) :: "" }

  lemma NeededAre(tools: Tools, front: seq<Hunk>, p: string)
    ensures p in Needed(tools, front) <==> NeedsFile(tools.scope, front, p)
  {
  }

  lemma FrontPlans(tools: Tools, front: seq<Hunk>, bad: string)
    requires AllResolve(tools, front) && Satisfiable(tools.scope, front) && tools.update == Refuses(bad)
    ensures PlanAll(tools, Needed(tools, front), front).Ok?
  {
    var files := Needed(tools, front);
    forall h | h in front ensures PlanHunk(tools, files, h).Ok? {
      assert h.path in Targets(h);
      var p := tools.scope(h.path).abs;
      NeededAre(tools, front, p);
      if h.Add? { assert NeedsNone(tools.scope, front, p); } else { assert NeedsFile(tools.scope, front, p); }
      if Moves(h) { assert Targets(h)[1] == h.movePath.value && h.movePath.value in Targets(h); }
    }
    PlanAllSucceeds(tools, files, front);
  }

  /** What was edited, or moved and not added, reads "x". */
  ghost predicate Marked(scope: Guard, front: seq<Hunk>, now: Files) {
    forall p :: MarkedAt(Effects(scope, front, p), NeedsNone(scope, front, p), now, p)
  }

  predicate MarkedAt(effect: Effect, added: bool, now: Files, p: string) {
    (effect.Edited? || (effect.Made? && !added)) && p in now ==> now[p] == "x"
  }

  lemma HunkMarks(tools: Tools, now: Files, h: Hunk, bad: string, before: Effect, added: bool, p: string)
    requires Resolves(tools, h) && tools.update == Refuses(bad) && PlanHunk(tools, now, h).Ok?
    requires MarkedAt(before, added, now, p)
    ensures MarkedAt(EffectOf(tools.scope, h, before, p), added || (h.Add? && tools.scope(h.path) == Resolved(p)),
                     Exec(now, PlanHunk(tools, now, h).value), p)
  {
    var ops := PlanHunk(tools, now, h).value;
    assert h.path in Targets(h);
    if Moves(h) {
      assert Targets(h)[1] == h.movePath.value && h.movePath.value in Targets(h);
      assert ops == [ops[0], ops[1]];
      ExecTwo(now, ops[0], ops[1]);
    } else {
      assert ops == [ops[0]];
      ExecOne(now, ops[0]);
    }
  }

  lemma {:induction false} RestMarks(tools: Tools, front: seq<Hunk>, rest: seq<Hunk>, now: Files, bad: string)
    requires AllResolve(tools, rest) && tools.update == Refuses(bad)
    requires Marked(tools.scope, front, now) && ApplyOneByOne(tools, now, rest).Patched?
    ensures Marked(tools.scope, front + rest, ApplyOneByOne(tools, now, rest).files)
    decreases |rest|
  {
    hide MarkedAt, Effects, EffectOf, Resolves;
    if rest == [] {
      assert front + rest == front;
    } else {
      var h := rest[0];
      assert h in rest && forall g :: g in rest[1..] ==> g in rest;
      HunkBetween(front, rest);
      var after := Exec(now, PlanHunk(tools, now, h).value);
      forall p ensures MarkedAt(Effects(tools.scope, front + [h], p), NeedsNone(tools.scope, front + [h], p), after, p) {
        NeedsBehind(tools.scope, front, h, p);
        HunkMarks(tools, now, h, bad, Effects(tools.scope, front, p), NeedsNone(tools.scope, front, p), p);
      }
      RestMarks(tools, front + [h], rest[1..], after, bad);
    }
  }

  predicate Names(e: Error, path: string) { e == FileExists(path) || e == NotFound(path) || e == PatchFailed(path) }

  lemma HunkErrorNames(tools: Tools, files: Files, h: Hunk, bad: string)
    requires Resolves(tools, h) && tools.update == Refuses(bad)
    ensures PlanHunk(tools, files, h).Err? ==> Names(PlanHunk(tools, files, h).error, h.path)
  {
    assert h.path in Targets(h);
    if Moves(h) { assert Targets(h)[1] == h.movePath.value && h.movePath.value in Targets(h); }
  }

  /** No error of planning these hunks speaks of the path. */
  lemma {:induction false} RestPlanErrorsName(tools: Tools, files: Files, rest: seq<Hunk>, bad: string, path: string)
    requires AllResolve(tools, rest) && tools.update == Refuses(bad) && forall h :: h in rest ==> h.path != path
    ensures PlanAll(tools, files, rest).Err? ==> !Names(PlanAll(tools, files, rest).error, path)
    decreases |rest|
  {
    hide Resolves, PlanHunk;
    if rest != [] {
      assert rest[0] in rest && forall g :: g in rest[1..] ==> g in rest;
      HunkErrorNames(tools, files, rest[0], bad);
      RestPlanErrorsName(tools, files, rest[1..], bad, path);
    }
  }

  /** Nor one of applying them one by one. */
  lemma {:induction false} RestErrorsName(tools: Tools, now: Files, rest: seq<Hunk>, bad: string, path: string)
    requires AllResolve(tools, rest) && tools.update == Refuses(bad) && forall h :: h in rest ==> h.path != path
    ensures ApplyOneByOne(tools, now, rest).Failed? ==> !Names(ApplyOneByOne(tools, now, rest).error, path)
    decreases |rest|
  {
    hide Resolves, PlanHunk;
    if rest != [] {
      assert rest[0] in rest && forall g :: g in rest[1..] ==> g in rest;
      HunkErrorNames(tools, now, rest[0], bad);
      if PlanHunk(tools, now, rest[0]).Ok? {
        RestErrorsName(tools, Exec(now, PlanHunk(tools, now, rest[0]).value), rest[1..], bad, path);
      }
    }
  }

  /** A hunk that cannot follow is planned one way and meets something else. */
  lemma BadHunkDiffers(tools: Tools, front: seq<Hunk>, now: Files, h: Hunk)
    requires Resolves(tools, h) && tools.update == Refuses(h.path) && tools.scope(h.path).Resolved?
    requires Satisfiable(tools.scope, front) && !CanFollowAll(tools.scope, front, h)
    requires Tracks(tools.scope, front, Needed(tools, front), now) && Marked(tools.scope, front, now)
    ensures PlanHunk(tools, Needed(tools, front), h) != PlanHunk(tools, now, h)
    ensures PlanHunk(tools, Needed(tools, front), h).Err? || PlanHunk(tools, now, h).Err?
  {
    var files, p := Needed(tools, front), tools.scope(h.path).abs;
    var effect := Effects(tools.scope, front, p);
    NeededAre(tools, front, p);
    assert TracksAt(effect, files, now, p);
    assert MarkedAt(effect, NeedsNone(tools.scope, front, p), now, p);
    if effect.Gone? || effect.Edited? { OwnEffectNeeds(tools.scope, front, p); }
    if Moves(h) { assert Targets(h)[1] == h.movePath.value && h.movePath.value in Targets(h); }
    hide Tracks, Marked, Effects, Needed, Satisfiable;
  }

  /** Only a hunk whose file it is edits or removes a path. */
  lemma {:induction false} OwnEffectNeeds(scope: Guard, front: seq<Hunk>, p: string)
    requires Effects(scope, front, p).Gone? || Effects(scope, front, p).Edited?
    ensures NeedsFile(scope, front, p)
    decreases |front|
  {
    var n := |front| - 1;
    var h := front[n];
    assert h in front;
    if !(scope(h.path) == Resolved(p) && !h.Add?) {
      OwnEffectNeeds(scope, front[..n], p);
      var g :| g in front[..n] && !g.Add? && scope(g.path) == Resolved(p);
      assert g in front;
    }
  }

  lemma {:induction false} PlanAllAppend(tools: Tools, files: Files, a: seq<Hunk>, b: seq<Hunk>)
    requires PlanAll(tools, files, a).Ok?
    ensures var plan := PlanAll(tools, files, a).value;
      PlanAll(tools, files, a + b) == Behind(plan.ops, plan.patched, PlanAll(tools, files, b))
    decreases |a|
  {
    if a == [] {
      assert a + b == b;
      BehindNothing(PlanAll(tools, files, b));
    } else {
      assert (a + b)[1..] == a[1..] + b;
      PlanAllAppend(tools, files, a[1..], b);
      if PlanAll(tools, files, b).Ok? {
        var rest, last := PlanAll(tools, files, a[1..]).value, PlanAll(tools, files, b).value;
        AppendAssociative(PlanHunk(tools, files, a[0]).value, rest.ops, last.ops);
        AppendAssociative([PatchedName(a[0])], rest.patched, last.patched);
      }
    }
  }

  lemma {:induction false} OneByOneAppend(tools: Tools, files: Files, a: seq<Hunk>, b: seq<Hunk>)
    requires ApplyOneByOne(tools, files, a).Patched?
    ensures var front := ApplyOneByOne(tools, files, a);
      ApplyOneByOne(tools, files, a + b) == match ApplyOneByOne(tools, front.files, b)
        case Patched(final, names) => Patched(final, front.names + names)
        case other => other
    decreases |a|
  {
    if a == [] {
      assert a + b == b;
      var last := ApplyOneByOne(tools, files, b);
      if last.Patched? { assert [] + last.names == last.names; }
    } else {
      assert (a + b)[1..] == a[1..] + b;
      var after := Exec(files, PlanHunk(tools, files, a[0]).value);
      OneByOneAppend(tools, after, a[1..], b);
      var rest := ApplyOneByOne(tools, after, a[1..]);
      var last := ApplyOneByOne(tools, rest.files, b);
      if last.Patched? { AppendAssociative([PatchedName(a[0])], rest.names, last.names); }
    }
  }

  /** The rest behind a hunk that is planned one way and meets something else cannot make up for it. */
  lemma RestCannotAgree(tools: Tools, files: Files, now: Files, h: Hunk, rest: seq<Hunk>)
    requires AllResolve(tools, [h] + rest) && tools.update == Refuses(h.path)
    requires forall g :: g in rest ==> g.path != h.path
    requires PlanHunk(tools, files, h) != PlanHunk(tools, now, h)
    requires PlanHunk(tools, files, h).Err? || PlanHunk(tools, now, h).Err?
    ensures var plan, apart := PlanAll(tools, files, [h] + rest), ApplyOneByOne(tools, now, [h] + rest);
      if plan.Err? then apart != Failed(plan.error) else !apart.Patched?
  {
    hide Resolves;
    var all := [h] + rest;
    assert all[1..] == rest && h in all && forall g :: g in rest ==> g in all;
    HunkErrorNames(tools, files, h, h.path);
    HunkErrorNames(tools, now, h, h.path);
    RestPlanErrorsName(tools, files, rest, h.path, h.path);
    if PlanHunk(tools, now, h).Ok? {
      RestErrorsName(tools, Exec(now, PlanHunk(tools, now, h).value), rest, h.path, h.path);
    }
  }

  lemma OwnPathOnce(hunks: seq<Hunk>, j: nat)
    requires j < |hunks| && NoDup(AllTargets(hunks))
    ensures forall g :: g in hunks[j + 1..] ==> g.path != hunks[j].path
  {
    AllTargetsSplit(hunks, j);
    DisjointParts(AllTargets(hunks[..j]), AllTargets(hunks[j..]));
    assert hunks[j..][0] == hunks[j] && hunks[j..][1..] == hunks[j + 1..];
    DisjointParts(Targets(hunks[j]), AllTargets(hunks[j + 1..]));
    forall g | g in hunks[j + 1..] ensures g.path != hunks[j].path {
      assert g.path in Targets(g) && hunks[j].path in Targets(hunks[j]);
      TargetsListed(hunks[j + 1..], g, g.path);
    }
  }

  /** The hunks in front all succeed on the files they need. */
  lemma FrontSucceeds(tools: Tools, front: seq<Hunk>, bad: string)
    requires AllResolve(tools, front) && Satisfiable(tools.scope, front) && tools.update == Refuses(bad)
    requires forall i :: 0 <= i < |front| ==> FollowsAt(tools, front, i)
    ensures var files := Needed(tools, front);
      && PlanAll(tools, files, front).Ok?
      && var now := Exec(files, PlanAll(tools, files, front).value.ops);
      && ApplyOneByOne(tools, files, front) == Patched(now, PlanAll(tools, files, front).value.patched)
      && Tracks(tools.scope, front, files, now) && Marked(tools.scope, front, now)
  {
    hide Tracks, Marked, Needed, Satisfiable, FollowsAt;
    var files := Needed(tools, front);
    FrontPlans(tools, front, bad);
    NothingTracked(tools.scope, files);
    NothingMarked(tools.scope, files);
    assert [] + front == front;
    AheadMatches(tools, [], front, files, files);
    RestMarks(tools, [], front, files, bad);
  }

  lemma NothingMarked(scope: Guard, files: Files)
    ensures Marked(scope, [], files)
  {
  }

  lemma ApartBehindFront(tools: Tools, files: Files, front: seq<Hunk>, now: Files, h: Hunk, rest: seq<Hunk>)
    requires PlanAll(tools, files, front).Ok? && ApplyOneByOne(tools, files, front).Patched?
    requires ApplyOneByOne(tools, files, front).files == now
    requires AllResolve(tools, [h] + rest) && tools.update == Refuses(h.path)
    requires forall g :: g in rest ==> g.path != h.path
    requires PlanHunk(tools, files, h) != PlanHunk(tools, now, h)
    requires PlanHunk(tools, files, h).Err? || PlanHunk(tools, now, h).Err?
    ensures ApplyAtomically(tools, files, front + ([h] + rest)) != ApplyOneByOne(tools, files, front + ([h] + rest))
  {
    RestCannotAgree(tools, files, now, h, rest);
    PlanAllAppend(tools, files, front, [h] + rest);
    OneByOneAppend(tools, files, front, [h] + rest);
    hide PlanAll, ApplyOneByOne, PlanHunk;
  }

  lemma SameGuard(tools: Tools, t: Tools, hunks: seq<Hunk>, j: nat)
    requires AllResolve(tools, hunks) && t.scope == tools.scope && j < |hunks|
    ensures AllResolve(t, hunks) && AllResolve(t, hunks[..j]) && AllResolve(t, [hunks[j]] + hunks[j + 1..])
    ensures hunks == hunks[..j] + ([hunks[j]] + hunks[j + 1..])
    ensures Resolves(t, hunks[j]) && t.scope(hunks[j].path).Resolved?
  {
    assert hunks[j] in hunks;
    assert AllResolve(t, hunks);
    OwnResolves(t, hunks[j]);
  }

  lemma FrontFollows(tools: Tools, t: Tools, hunks: seq<Hunk>, j: nat)
    requires AllResolve(tools, hunks) && t.scope == tools.scope && j < |hunks| && AllResolve(t, hunks[..j])
    requires forall i :: 0 <= i < j ==> FollowsAt(tools, hunks, i)
    ensures forall i :: 0 <= i < j ==> FollowsAt(t, hunks[..j], i)
  {
    forall i | 0 <= i < j ensures FollowsAt(t, hunks[..j], i) {
      assert FollowsAt(tools, hunks, i) && hunks[..j][..i] == hunks[..i] && hunks[..j][i] == hunks[i];
    }
  }

  lemma FirstBadDisagrees(tools: Tools, hunks: seq<Hunk>, j: nat)
    requires AllResolve(tools, hunks) && NoDup(AllTargets(hunks)) && j < |hunks|
    requires !FollowsAt(tools, hunks, j) && forall i :: 0 <= i < j ==> FollowsAt(tools, hunks, i)
    ensures !AgreesAlways(tools, hunks)
  {
    var front, h, rest := hunks[..j], hunks[j], hunks[j + 1..];
    var t := tools.(update := Refuses(h.path));
    SameGuard(tools, t, hunks, j);
    FrontFollows(tools, t, hunks, j);
    assert Satisfiable(t.scope, front) && !CanFollowAll(t.scope, front, h);
    OwnPathOnce(hunks, j);
    hide FollowsAt, Satisfiable, CanFollowAll, AllResolve, Resolves, NoDup, AllTargets, PlanAll, ApplyOneByOne, Tracks, Marked;
    FrontSucceeds(t, front, h.path);
    var files := Needed(t, front);
    var now := Exec(files, PlanAll(t, files, front).value.ops);
    BadHunkDiffers(t, front, now, h);
    ApartBehindFront(t, files, front, now, h, rest);
    assert !AgreesOn(tools, t.update, files, hunks);
  }

  /** A patch that passes the duplicate check and whose targets resolve, planned as a whole, does what its hunks
      do one by one, for all files and all matchers, exactly when every hunk that can be reached at all can
      follow those in front of it. */
  lemma PatchAgreesIff(tools: Tools, hunks: seq<Hunk>)
    requires AllResolve(tools, hunks) && NoDup(AllTargets(hunks))
    ensures AgreesAlways(tools, hunks) <==> PlansAhead(tools, hunks)
  {
    if PlansAhead(tools, hunks) {
      forall update: Matcher, files ensures AgreesOn(tools, update, files, hunks) {
        var t := tools.(update := update);
        NothingTracked(t.scope, files);
        assert [] + hunks == hunks && AllResolve(t, hunks);
        forall j | 0 <= j < |hunks| ensures FollowsAt(t, hunks, j) { assert FollowsAt(tools, hunks, j); }
        AheadMatches(t, [], hunks, files, files);
      }
    } else {
      var j := FirstBad(tools, hunks);
      FirstBadDisagrees(tools, hunks, j);
    }
  }

  lemma FirstBad(tools: Tools, hunks: seq<Hunk>) returns (j: nat)
    requires AllResolve(tools, hunks) && !PlansAhead(tools, hunks)
    ensures j < |hunks| && !FollowsAt(tools, hunks, j) && forall i :: 0 <= i < j ==> FollowsAt(tools, hunks, i)
  {
    var k :| 0 <= k < |hunks| && !FollowsAt(tools, hunks, k);
    j := 0;
    while FollowsAt(tools, hunks, j)
      invariant j <= k && forall i :: 0 <= i < j ==> FollowsAt(tools, hunks, i)
      decreases k - j
    {
      j := j + 1;
    }
  }

  /** The name reported for a hunk is a path it touches, except for an update with an empty destination,
      which is no move but is reported under the empty name. */
  lemma ReportedNameIff(h: Hunk)
    ensures PatchedName(h) in Targets(h) <==> !(h.Update? && h.movePath == Some("")) || h.path == ""
  {
    assert h.path in Targets(h);
    if Moves(h) { assert Targets(h)[1] == h.movePath.value; }
  }

  // ---- When the raw spelling check is enough ----------------------------------------------------

  ghost predicate Injective(tools: Tools) {
    forall p, q :: p != q && tools.scope(p).Resolved? ==> tools.scope(p) != tools.scope(q)
  }

  /** Every patch that passes the duplicate check behaves as its hunks would one by one. */
  ghost predicate RefinesOneByOne(tools: Tools) {
    forall files, hunks :: NoDup(AllTargets(hunks)) ==>
      ApplyAtomically(tools, files, hunks) == ApplyOneByOne(tools, files, hunks)
  }

  lemma {:induction false} TargetsListed(hunks: seq<Hunk>, h: Hunk, t: string)
    requires h in hunks && t in Targets(h)
    ensures t in AllTargets(hunks)
  {
    if h != hunks[0] { TargetsListed(hunks[1..], h, t); }
  }

  lemma KeysComeFromTargets(tools: Tools, h: Hunk, k: Key)
    ensures k in HunkKeys(tools, h) <==> exists t :: t in Targets(h) && KeyOf(tools, t) == k
  {
    var keys := KeysOf(tools, Targets(h));
    forall t | t in Targets(h) ensures KeyOf(tools, t) in keys {
      var i :| 0 <= i < |Targets(h)| && Targets(h)[i] == t;
      assert keys[i] == KeyOf(tools, t);
    }
  }

  lemma DisjointTargetsDisjointKeys(tools: Tools, g: Hunk, h: Hunk)
    requires Injective(tools) && forall t :: t in Targets(g) ==> t !in Targets(h)
    ensures HunkKeys(tools, g) !! HunkKeys(tools, h)
  {
    forall k | k in HunkKeys(tools, g) ensures k !in HunkKeys(tools, h) {
      KeysComeFromTargets(tools, g, k);
      KeysComeFromTargets(tools, h, k);
      var a :| a in Targets(g) && KeyOf(tools, a) == k;
      forall b | b in Targets(h) ensures KeyOf(tools, b) != k {
        assert a != b;
      }
    }
  }

  lemma HeadDisjoint(tools: Tools, hunks: seq<Hunk>, other: Hunk)
    requires Injective(tools) && hunks != [] && NoDup(AllTargets(hunks)) && other in hunks[1..]
    ensures HunkKeys(tools, hunks[0]) !! HunkKeys(tools, other)
  {
    DisjointParts(Targets(hunks[0]), AllTargets(hunks[1..]));
    forall t | t in Targets(other) ensures t in AllTargets(hunks[1..]) {
      TargetsListed(hunks[1..], other, t);
    }
    DisjointTargetsDisjointKeys(tools, hunks[0], other);
  }

  lemma OwnKeysDistinct(tools: Tools, h: Hunk)
    requires Injective(tools) && NoDup(Targets(h))
    ensures NoDup(KeysOf(tools, Targets(h)))
  {
    NoDupIsDistinct(Targets(h));
    NoDupIsDistinct(KeysOf(tools, Targets(h)));
  }

  lemma {:induction false} RawDistinctSuffices(tools: Tools, hunks: seq<Hunk>)
    requires Injective(tools) && NoDup(AllTargets(hunks))
    ensures DistinctTargets(tools, hunks)
  {
    if hunks != [] {
      DisjointParts(Targets(hunks[0]), AllTargets(hunks[1..]));
      RawDistinctSuffices(tools, hunks[1..]);
      OwnKeysDistinct(tools, hunks[0]);
      forall i, j | 0 <= i < j < |hunks|
        ensures HunkKeys(tools, hunks[i]) !! HunkKeys(tools, hunks[j])
      {
        assert hunks[j] == hunks[1..][j - 1];
        if i == 0 { HeadDisjoint(tools, hunks, hunks[j]); } else { assert hunks[i] == hunks[1..][i - 1]; }
      }
    }
  }

  /** Two spellings of one file defeat the duplicate check: the second Add silently replaces what
      the first one wrote, where one by one it would be refused. */
  lemma AliasedAddsDisagree(tools: Tools, p: string, q: string)
    requires p != q && tools.scope(p).Resolved? && tools.scope(p) == tools.scope(q)
    ensures var hunks, abs := [Add(p, "1"), Add(q, "2")], tools.scope(p).abs;
      && NoDup(AllTargets(hunks))
      && ApplyAtomically(tools, map[], hunks) == Patched(map[abs := "2"], [p, q])
      && ApplyOneByOne(tools, map[], hunks) == Failed(FileExists(q))
  {
    var hunks, abs := [Add(p, "1"), Add(q, "2")], tools.scope(p).abs;
    var files: Files := map[];
    assert hunks[1..] == [Add(q, "2")] && hunks[1..][1..] == [];
    assert AllTargets(hunks[1..]) == [q] + AllTargets(hunks[1..][1..]);
    assert AllTargets(hunks) == [p] + AllTargets(hunks[1..]) == [p, q];
    NoDupIsDistinct([p, q]);
    var first, second := Write(abs, "1"), Write(abs, "2");
    assert PlanAll(tools, files, hunks[1..][1..]) == Ok(Plan([], []));
    assert [second] + [] == [second] && [q] + [] == [q] && [p] + [q] == [p, q];
    assert PlanAll(tools, files, hunks[1..]) == Ok(Plan([second], [q]));
    assert [first] + [second] == [first, second];
    assert PlanAll(tools, files, hunks) == Ok(Plan([first, second], [p, q]));
    ExecTwo(files, first, second);
    ExecOne(files, first);
  }

  lemma ExecOne(files: Files, op: FsOp)
    ensures Exec(files, [op]) == ExecOp(files, op)
  {
    assert [op][1..] == [];
  }

  lemma ExecTwo(files: Files, first: FsOp, second: FsOp)
    ensures Exec(files, [first, second]) == ExecOp(ExecOp(files, first), second)
  {
    assert [first, second][1..] == [second];
    ExecOne(ExecOp(files, first), second);
  }

  /** The raw duplicate check makes the patch equal to its hunks one by one for every patch and
      every file system exactly when no two spellings resolve to one file. */
  lemma RawCheckSufficesIffInjective(tools: Tools)
    ensures RefinesOneByOne(tools) <==> Injective(tools)
  {
    if Injective(tools) {
      forall files, hunks | NoDup(AllTargets(hunks))
        ensures ApplyAtomically(tools, files, hunks) == ApplyOneByOne(tools, files, hunks)
      {
        RawDistinctSuffices(tools, hunks);
        DistinctIsFollowable(tools, hunks);
        PlanMatchesOneByOne(tools, files, files, hunks);
      }
    } else {
      var p, q :| p != q && tools.scope(p).Resolved? && tools.scope(p) == tools.scope(q);
      AliasedAddsDisagree(tools, p, q);
      var files: Files := map[];
      var hunks := [Add(p, "1"), Add(q, "2")];
      assert NoDup(AllTargets(hunks)) && ApplyAtomically(tools, files, hunks) != ApplyOneByOne(tools, files, hunks);
    }
  }

  /** Moving a file onto another spelling of itself deletes it. */
  lemma MoveOntoItselfLosesFile(tools: Tools, files: Files, h: Hunk)
    requires Moves(h) && tools.scope(h.path).Resolved? && tools.scope(h.path) == tools.scope(h.movePath.value)
    requires PlanHunk(tools, files, h).Ok?
    ensures Exec(files, PlanHunk(tools, files, h).value) == files - {tools.scope(h.path).abs}
  {
    var ops := PlanHunk(tools, files, h).value;
    assert ops == [ops[0], ops[1]];
    ExecTwo(files, ops[0], ops[1]);
  }

  // ---- Which error, which names ------------------------------------------------------------------

  /** What the planning of one hunk answers, by whether its path is accepted, whether its file exists and
      what the matcher makes of the content. */
  lemma HunkAnswer(tools: Tools, files: Files, h: Hunk)
    ensures match tools.scope(h.path)
      case Refused(e) => PlanHunk(tools, files, h) == Err(e)
      case Resolved(abs) =>
        && (h.Add? ==> if abs in files then PlanHunk(tools, files, h) == Err(FileExists(h.path))
                       else PlanHunk(tools, files, h).Ok?)
        && (!h.Add? && abs !in files ==> PlanHunk(tools, files, h) == Err(NotFound(h.path)))
        && (h.Delete? && abs in files ==> PlanHunk(tools, files, h).Ok?)
        && (h.Update? && abs in files ==>
              match tools.update(files[abs], h.path, h.chunks)
              case Mismatched => PlanHunk(tools, files, h) == Err(PatchFailed(h.path))
              case Raised => PlanHunk(tools, files, h) == Err(IoError)
              case Matched(_) =>
                if h.movePath.Some? && h.movePath.value != "" && tools.scope(h.movePath.value).Refused?
                then PlanHunk(tools, files, h) == Err(tools.scope(h.movePath.value).error)
                else PlanHunk(tools, files, h).Ok?)
  {
  }

  /** Planning fails with the error of the first hunk that cannot be planned. */
  lemma {:induction false} FirstFailureAnswers(tools: Tools, files: Files, hunks: seq<Hunk>)
    requires PlanAll(tools, files, hunks).Err?
    ensures exists i :: 0 <= i < |hunks| && PlanHunk(tools, files, hunks[i]) == Err(PlanAll(tools, files, hunks).error)
                        && forall k :: 0 <= k < i ==> PlanHunk(tools, files, hunks[k]).Ok?
  {
    hide PlanHunk;
    if PlanHunk(tools, files, hunks[0]).Err? {
      assert PlanHunk(tools, files, hunks[0]) == Err(PlanAll(tools, files, hunks).error);
    } else {
      var rest := hunks[1..];
      FirstFailureAnswers(tools, files, rest);
      var i :| 0 <= i < |rest| && PlanHunk(tools, files, rest[i]) == Err(PlanAll(tools, files, rest).error)
               && forall k :: 0 <= k < i ==> PlanHunk(tools, files, rest[k]).Ok?;
      assert hunks[i + 1] == rest[i];
      assert forall k :: 0 < k < i + 1 ==> hunks[k] == rest[k - 1];
    }
  }

  lemma {:induction false} NamesInOrder(tools: Tools, files: Files, hunks: seq<Hunk>, i: nat)
    requires PlanAll(tools, files, hunks).Ok? && i < |hunks|
    ensures var names := PlanAll(tools, files, hunks).value.patched;
      |names| == |hunks| && names[i] == PatchedName(hunks[i]) && PlanHunk(tools, files, hunks[i]).Ok?
    decreases |hunks|
  {
    hide PlanHunk, PatchedName;
    if |hunks| > 1 { NamesInOrder(tools, files, hunks[1..], if i > 0 then i - 1 else 0); }
  }

  /** A planned patch reports one name for each hunk, in their order: the destination of a move, and the path
      of any other hunk. The path it resolves to is the one the hunk's operation writes or, for a Delete,
      removes; the one odd case is an update whose destination is empty. */
  lemma ReportedNames(tools: Tools, files: Files, hunks: seq<Hunk>, i: nat)
    requires PlanAll(tools, files, hunks).Ok? && i < |hunks|
    ensures var names, h := PlanAll(tools, files, hunks).value.patched, hunks[i];
      && |names| == |hunks| && PlanHunk(tools, files, h).Ok?
      && var ops := PlanHunk(tools, files, h).value;
      && names[i] == (if h.Update? && h.movePath.Some? then h.movePath.value else h.path)
      && (h.Delete? ==> tools.scope(names[i]).Resolved? && ops == [Rm(tools.scope(names[i]).abs)])
      && (!h.Delete? && !(h.Update? && h.movePath == Some("")) ==>
            tools.scope(names[i]).Resolved? && ops[0].Write? && ops[0].abs == tools.scope(names[i]).abs)
  {
    NamesInOrder(tools, files, hunks, i);
  }

  /** So after execution each reported name is a file with its hunk's content, or a file that is gone. */
  lemma ReportedNamesHold(tools: Tools, files: Files, hunks: seq<Hunk>, i: nat)
    requires DistinctTargets(tools, hunks) && PlanAll(tools, files, hunks).Ok? && i < |hunks|
    requires !(hunks[i].Update? && hunks[i].movePath == Some(""))
    ensures var plan, h := PlanAll(tools, files, hunks).value, hunks[i];
      && |plan.patched| == |hunks| && tools.scope(plan.patched[i]).Resolved?
      && var left, own := At(Exec(files, plan.ops), tools.scope(plan.patched[i]).abs), tools.scope(h.path);
      match h
      case Add(_, content) => left == Some(content)
      case Delete(_) => left == None
      case Update(path, _, chunks) =>
        && own.Resolved? && own.abs in files && tools.update(files[own.abs], path, chunks).Matched?
        && left == Some(tools.update(files[own.abs], path, chunks).text)
  {
    ReportedNames(tools, files, hunks, i);
    EveryHunkDone(tools, files, hunks, hunks[i], "");
  }

  // ---- The order of the hunks does not matter ---------------------------------------------------

  /** Planning succeeds exactly when every hunk can be planned. */
  lemma {:induction false} PlanAllSucceeds(tools: Tools, files: Files, hunks: seq<Hunk>)
    ensures PlanAll(tools, files, hunks).Ok? <==> forall h :: h in hunks ==> PlanHunk(tools, files, h).Ok?
  {
    if hunks != [] { PlanAllSucceeds(tools, files, hunks[1..]); }
  }

  /** What executing some operations leaves at one path. */
  function At(files: Files, p: string): Option<string> {
    if p in files then Some(files[p]) else None
  }

  lemma {:induction false} TouchedValue(a: Files, b: Files, ops: seq<FsOp>, p: string)
    requires Abs(p) in Touched(ops) || At(a, p) == At(b, p)
    ensures At(Exec(a, ops), p) == At(Exec(b, ops), p)
    decreases |ops|
  {
    if ops != [] { TouchedValue(ExecOp(a, ops[0]), ExecOp(b, ops[0]), ops[1..], p); }
  }

  /** A path touched by a hunk ends up as that hunk alone would leave it. */
  lemma {:induction false} FinalValue(tools: Tools, planned: Files, files: Files, hunks: seq<Hunk>, h: Hunk, p: string)
    requires DistinctTargets(tools, hunks) && PlanAll(tools, planned, hunks).Ok?
    requires h in hunks && Abs(p) in HunkKeys(tools, h) && PlanHunk(tools, planned, h).Ok?
    ensures At(Exec(files, PlanAll(tools, planned, hunks).value.ops), p)
         == At(Exec(planned, PlanHunk(tools, planned, h).value), p)
    decreases |hunks|
  {
    DistinctTail(tools, hunks);
    var ops := PlanHunk(tools, planned, hunks[0]).value;
    var rest := PlanAll(tools, planned, hunks[1..]).value.ops;
    ExecAppend(files, ops, rest);
    PlanTouchesTargets(tools, planned, hunks[0]);
    if h == hunks[0] {
      TouchedValue(files, planned, ops, p);
      UntouchedValue(tools, planned, Exec(files, ops), hunks[1..], p);
    } else {
      FinalValue(tools, planned, Exec(files, ops), hunks[1..], h, p);
    }
  }

  lemma {:induction false} UntouchedValue(tools: Tools, planned: Files, files: Files, hunks: seq<Hunk>, p: string)
    requires PlanAll(tools, planned, hunks).Ok? && Abs(p) !in PatchKeys(tools, hunks)
    ensures At(Exec(files, PlanAll(tools, planned, hunks).value.ops), p) == At(files, p)
    decreases |hunks|
  {
    if hunks != [] {
      var ops := PlanHunk(tools, planned, hunks[0]).value;
      ExecAppend(files, ops, PlanAll(tools, planned, hunks[1..]).value.ops);
      PlanTouchesTargets(tools, planned, hunks[0]);
      assert hunks[0] in hunks;
      ExecFrame(files, ops, p);
      assert PatchKeys(tools, hunks[1..]) <= PatchKeys(tools, hunks);
      UntouchedValue(tools, planned, Exec(files, ops), hunks[1..], p);
    }
  }

  /** What a hunk asks for: an Add creates its file, a Delete removes one that was there, and an Update
      leaves the updated content at the destination and nothing at the old place of a moved file. */
  ghost predicate Done(tools: Tools, before: Files, after: Files, h: Hunk) {
    && tools.scope(h.path).Resolved?
    && var abs := tools.scope(h.path).abs;
    match h
    case Add(_, content) => At(before, abs) == None && At(after, abs) == Some(content)
    case Delete(_) => At(before, abs) != None && At(after, abs) == None
    case Update(path, _, chunks) =>
      && abs in before
      && tools.update(before[abs], path, chunks).Matched?
      && var updated := Some(tools.update(before[abs], path, chunks).text);
      if !Moves(h) then At(after, abs) == updated
      else
        && tools.scope(h.movePath.value).Resolved?
        && At(after, tools.scope(h.movePath.value).abs) == updated && At(after, abs) == None
  }

  lemma OneHunkDone(tools: Tools, before: Files, h: Hunk)
    requires PlanHunk(tools, before, h).Ok? && NoDup(KeysOf(tools, Targets(h)))
    ensures Done(tools, before, Exec(before, PlanHunk(tools, before, h).value), h)
  {
    var ops := PlanHunk(tools, before, h).value;
    if |ops| == 1 {
      assert ops == [ops[0]];
      ExecOne(before, ops[0]);
    } else {
      assert ops == [ops[0], ops[1]];
      ExecTwo(before, ops[0], ops[1]);
      var keys := KeysOf(tools, Targets(h));
      NoDupIsDistinct(keys);
      assert keys[0] != keys[1];
    }
  }

  lemma SameAtTargets(tools: Tools, before: Files, alone: Files, after: Files, h: Hunk)
    requires Done(tools, before, alone, h)
    requires forall p :: Abs(p) in HunkKeys(tools, h) ==> At(after, p) == At(alone, p)
    ensures Done(tools, before, after, h)
  {
    var keys := KeysOf(tools, Targets(h));
    assert keys[0] == KeyOf(tools, h.path) && keys[0] in HunkKeys(tools, h);
    if Moves(h) { assert keys[1] == KeyOf(tools, h.movePath.value) && keys[1] in HunkKeys(tools, h); }
  }

  /** A patch that can be planned leaves the files with every hunk done, each against the files before the
      patch, and every other path as it was. */
  lemma EveryHunkDone(tools: Tools, files: Files, hunks: seq<Hunk>, h: Hunk, p: string)
    requires DistinctTargets(tools, hunks) && PlanAll(tools, files, hunks).Ok? && h in hunks
    ensures var after := Exec(files, PlanAll(tools, files, hunks).value.ops);
      && Done(tools, files, after, h)
      && (Abs(p) !in PatchKeys(tools, hunks) ==> At(after, p) == At(files, p))
  {
    PlanAllSucceeds(tools, files, hunks);
    OneHunkDone(tools, files, h);
    var alone := Exec(files, PlanHunk(tools, files, h).value);
    var after := Exec(files, PlanAll(tools, files, hunks).value.ops);
    forall q | Abs(q) in HunkKeys(tools, h) ensures At(after, q) == At(alone, q) {
      FinalValue(tools, files, files, hunks, h, q);
    }
    SameAtTargets(tools, files, alone, after, h);
    if Abs(p) !in PatchKeys(tools, hunks) { UntouchedValue(tools, files, files, hunks, p); }
  }

  lemma OrderIrrelevantAt(tools: Tools, files: Files, hunks: seq<Hunk>, shuffled: seq<Hunk>, p: string)
    requires DistinctTargets(tools, hunks) && DistinctTargets(tools, shuffled)
    requires forall h :: h in hunks <==> h in shuffled
    requires PlanAll(tools, files, hunks).Ok? && PlanAll(tools, files, shuffled).Ok?
    ensures At(Exec(files, PlanAll(tools, files, hunks).value.ops), p)
         == At(Exec(files, PlanAll(tools, files, shuffled).value.ops), p)
  {
    if Abs(p) in PatchKeys(tools, hunks) {
      var h :| h in hunks && Abs(p) in HunkKeys(tools, h);
      PlanAllSucceeds(tools, files, hunks);
      FinalValue(tools, files, files, hunks, h, p);
      FinalValue(tools, files, files, shuffled, h, p);
    } else {
      assert Abs(p) !in PatchKeys(tools, shuffled);
      UntouchedValue(tools, files, files, hunks, p);
      UntouchedValue(tools, files, files, shuffled, p);
    }
  }

  lemma SameEverywhere(a: Files, b: Files)
    requires forall p :: At(a, p) == At(b, p)
    ensures a == b
  {
    forall p ensures p in a <==> p in b { assert At(a, p) == At(b, p); }
    forall p | p in a ensures a[p] == b[p] { assert At(a, p) == At(b, p); }
  }

  /** Any order of the hunks succeeds or fails alike and leaves the same files. */
  lemma OrderIrrelevant(tools: Tools, files: Files, hunks: seq<Hunk>, shuffled: seq<Hunk>)
    requires DistinctTargets(tools, hunks) && multiset(hunks) == multiset(shuffled)
    ensures PlanAll(tools, files, hunks).Ok? <==> PlanAll(tools, files, shuffled).Ok?
    ensures PlanAll(tools, files, hunks).Ok? ==>
      Exec(files, PlanAll(tools, files, hunks).value.ops) == Exec(files, PlanAll(tools, files, shuffled).value.ops)
  {
    SameMembers(hunks, shuffled);
    PlanAllSucceeds(tools, files, hunks);
    PlanAllSucceeds(tools, files, shuffled);
    if PlanAll(tools, files, hunks).Ok? {
      ShuffleKeepsDistinct(tools, hunks, shuffled);
      var a := Exec(files, PlanAll(tools, files, hunks).value.ops);
      var b := Exec(files, PlanAll(tools, files, shuffled).value.ops);
      forall p ensures At(a, p) == At(b, p) { OrderIrrelevantAt(tools, files, hunks, shuffled, p); }
      SameEverywhere(a, b);
    }
  }

  lemma HunkHasKey(tools: Tools, h: Hunk)
    ensures HunkKeys(tools, h) != {}
  {
    assert KeysOf(tools, Targets(h))[0] in HunkKeys(tools, h);
  }

  lemma ShuffleKeepsDistinct(tools: Tools, hunks: seq<Hunk>, shuffled: seq<Hunk>)
    requires DistinctTargets(tools, hunks) && multiset(hunks) == multiset(shuffled)
    ensures DistinctTargets(tools, shuffled)
  {
    SameMembers(hunks, shuffled);
    forall i, j | 0 <= i < j < |hunks| ensures hunks[i] != hunks[j] {
      HunkHasKey(tools, hunks[i]);
      assert HunkKeys(tools, hunks[i]) !! HunkKeys(tools, hunks[j]);
    }
    forall i, j | 0 <= i < j < |shuffled|
      ensures HunkKeys(tools, shuffled[i]) !! HunkKeys(tools, shuffled[j])
    {
      assert shuffled[i] in shuffled && shuffled[j] in shuffled;
      var a :| 0 <= a < |hunks| && hunks[a] == shuffled[i];
      var b :| 0 <= b < |hunks| && hunks[b] == shuffled[j];
      OnceEach(hunks, shuffled[i]);
      if shuffled[i] == shuffled[j] { Twice(shuffled, i, j); }
      assert a != b;
      var lo, hi := Min(a, b), Max(a, b);
      assert HunkKeys(tools, hunks[lo]) !! HunkKeys(tools, hunks[hi]);
    }
  }

  // ---- The program ------------------------------------------------------------------------------

  /** The first target that was seen before, if any. */
  function FirstRepeat(targets: seq<string>): (r: Option<string>)
    ensures r.None? <==> NoDup(targets)
  {
    if targets == [] then None
    else
      var front, last := targets[..|targets| - 1], targets[|targets| - 1];
      var earlier := FirstRepeat(front);
      if earlier.Some? then earlier else if last in front then Some(last) else None
  }

  /** The reported target occurs before its place, and nothing before that place repeats. */
  lemma {:induction false} FirstRepeatIsFirst(targets: seq<string>)
    requires FirstRepeat(targets).Some?
    ensures exists i :: 0 <= i < |targets| && targets[i] == FirstRepeat(targets).value
                        && targets[i] in targets[..i] && NoDup(targets[..i])
  {
    var n := |targets| - 1;
    var front := targets[..n];
    if FirstRepeat(front).Some? {
      FirstRepeatIsFirst(front);
      var i :| 0 <= i < n && front[i] == FirstRepeat(front).value && front[i] in front[..i] && NoDup(front[..i]);
      assert front[..i] == targets[..i] && front[i] == targets[i];
    } else {
      assert targets[n] in targets[..n] && NoDup(targets[..n]);
    }
  }

  lemma {:induction false} FirstRepeatKept(targets: seq<string>, more: seq<string>)
    requires FirstRepeat(targets).Some?
    ensures FirstRepeat(targets + more) == FirstRepeat(targets)
  {
    if more == [] {
      assert targets + more == targets;
    } else {
      assert (targets + more)[..|targets + more| - 1] == targets + more[..|more| - 1];
      FirstRepeatKept(targets, more[..|more| - 1]);
    }
  }

  /** The first of the operations from `from` to `n` that raises an input/output error, or `n`. */
  function FirstFault(faulty: nat -> bool, from: nat, n: nat): (k: nat)
    requires from <= n
    ensures from <= k <= n && (k < n ==> faulty(k)) && forall i :: from <= i < k ==> !faulty(i)
    decreases n - from
  {
    if from == n || faulty(from) then from else FirstFault(faulty, from + 1, n)
  }

  /** Writing stops at the first fault. */
  function WritePlan(files: Files, plan: Plan, faulty: nat -> bool): Outcome {
    var k := FirstFault(faulty, 0, |plan.ops|);
    if k < |plan.ops| then Interrupted(Exec(files, plan.ops[..k])) else Patched(Exec(files, plan.ops), plan.patched)
  }

  /** What the tool does with a patch text on the given files. */
  function Apply(tools: Tools, files: Files, patch: string, faulty: nat -> bool): Outcome {
    match tools.parse(patch)
    case None => Failed(ParseError)
    case Some(hunks) =>
      match FirstRepeat(AllTargets(hunks))
      case Some(t) => Failed(DuplicateTarget(t))
      case None =>
        match PlanAll(tools, files, hunks)
        case Err(e) => Failed(e)
        case Ok(plan) => WritePlan(files, plan, faulty)
  }

  class FileSystem {
    var files: Files

    constructor (files: Files)
      ensures this.files == files
    {
      this.files := files;
    }

    method WriteFile(abs: string, content: string)
      modifies this
      ensures files == old(files)[abs := content]
    {
      files := files[abs := content];
    }

    method Remove(abs: string)
      modifies this
      ensures files == old(files) - {abs}
    {
      files := files - {abs};
    }
  }

  lemma {:induction false} AllTargetsSnoc(hunks: seq<Hunk>, h: Hunk)
    ensures AllTargets(hunks + [h]) == AllTargets(hunks) + Targets(h)
  {
    if hunks == [] {
      assert hunks + [h] == [h] && AllTargets([h][1..]) == [];
    } else {
      assert (hunks + [h])[1..] == hunks[1..] + [h];
      AllTargetsSnoc(hunks[1..], h);
    }
  }

  lemma {:induction false} AllTargetsSplit(hunks: seq<Hunk>, i: nat)
    requires i <= |hunks|
    ensures AllTargets(hunks) == AllTargets(hunks[..i]) + AllTargets(hunks[i..])
  {
    if i == 0 {
      assert hunks[..0] == [] && hunks[0..] == hunks;
    } else {
      assert hunks[1..][..i - 1] == hunks[..i][1..] && hunks[1..][i - 1..] == hunks[i..];
      AllTargetsSplit(hunks[1..], i - 1);
    }
  }

  lemma NextTarget(past: seq<string>, t: string)
    requires NoDup(past)
    ensures t in past ==> FirstRepeat(past + [t]) == Some(t)
    ensures t !in past ==> NoDup(past + [t]) && ToSet(past + [t]) == ToSet(past) + {t}
  {
    assert (past + [t])[..|past|] == past;
  }

  lemma Regroup<T>(a: seq<T>, s: seq<T>, b: seq<T>, j: nat)
    requires j < |s|
    ensures a + s[..j] + [s[j]] + (s[j + 1..] + b) == a + (s + b)
  {
    assert s == s[..j] + ([s[j]] + s[j + 1..]);
  }

  lemma RepeatInside(before: seq<string>, targets: seq<string>, after: seq<string>, j: nat)
    requires j < |targets| && NoDup(before + targets[..j]) && targets[j] in before + targets[..j]
    ensures FirstRepeat(before + (targets + after)) == Some(targets[j])
  {
    var past, t, more := before + targets[..j], targets[j], targets[j + 1..] + after;
    NextTarget(past, t);
    FirstRepeatKept(past + [t], more);
    Regroup(before, targets, after, j);
  }

  /** A repeat found while walking the targets is the first repeat of the whole patch. */
  lemma FoundRepeat(hunks: seq<Hunk>, i: nat, j: nat)
    requires i < |hunks| && j < |Targets(hunks[i])|
    requires NoDup(AllTargets(hunks[..i]) + Targets(hunks[i])[..j])
    requires Targets(hunks[i])[j] in AllTargets(hunks[..i]) + Targets(hunks[i])[..j]
    ensures FirstRepeat(AllTargets(hunks)) == Some(Targets(hunks[i])[j])
  {
    AllTargetsSplit(hunks, i);
    assert hunks[i..][0] == hunks[i] && hunks[i..][1..] == hunks[i + 1..];
    RepeatInside(AllTargets(hunks[..i]), Targets(hunks[i]), AllTargets(hunks[i + 1..]), j);
  }

  lemma AllTargetsNext(hunks: seq<Hunk>, i: nat)
    requires i < |hunks|
    ensures AllTargets(hunks[..i + 1]) == AllTargets(hunks[..i]) + Targets(hunks[i])
  {
    AllTargetsSnoc(hunks[..i], hunks[i]);
    assert hunks[..i] + [hunks[i]] == hunks[..i + 1];
  }

  method FirstDuplicateTarget(hunks: seq<Hunk>) returns (dup: Option<string>)
    ensures dup == FirstRepeat(AllTargets(hunks))
  {
    var seen: set<string> := {};
    ghost var past: seq<string> := [];
    for i := 0 to |hunks|
      invariant past == AllTargets(hunks[..i]) && NoDup(past) && seen == ToSet(past)
    {
      var targets := Targets(hunks[i]);
      ghost var before := past;
      for j := 0 to |targets|
        invariant past == before + targets[..j] && NoDup(past) && seen == ToSet(past)
      {
        var t := targets[j];
        NextTarget(past, t);
        if t in seen {
          FoundRepeat(hunks, i, j);
          return Some(t);
        }
        seen := seen + {t};
        TakeNext(before, targets, j);
        past := past + [t];
      }
      assert targets[..|targets|] == targets;
      AllTargetsNext(hunks, i);
    }
    assert hunks[..|hunks|] == hunks;
    return None;
  }

  lemma TakeNext<T>(before: seq<T>, s: seq<T>, j: nat)
    requires j < |s|
    ensures before + s[..j + 1] == before + s[..j] + [s[j]]
  {
  }

  /** The plan of the remaining hunks behind what is already planned. */
  function Behind(ops: seq<FsOp>, patched: seq<string>, rest: Result<Plan>): Result<Plan> {
    match rest
    case Err(e) => Err(e)
    case Ok(plan) => Ok(Plan(ops + plan.ops, patched + plan.patched))
  }

  lemma BehindNothing(rest: Result<Plan>)
    ensures Behind([], [], rest) == rest
  {
    if rest.Ok? { assert [] + rest.value.ops == rest.value.ops && [] + rest.value.patched == rest.value.patched; }
  }

  /** Plans without writing: nothing is modified. */
  method BuildPlan(tools: Tools, fs: FileSystem, hunks: seq<Hunk>) returns (r: Result<Plan>)
    ensures match FirstRepeat(AllTargets(hunks))
      case Some(t) => r == Err(DuplicateTarget(t))
      case None => r == PlanAll(tools, fs.files, hunks)
  {
    var dup := FirstDuplicateTarget(hunks);
    if dup.Some? { return Err(DuplicateTarget(dup.value)); }
    var ops: seq<FsOp>, patched: seq<string> := [], [];
    assert hunks[0..] == hunks;
    BehindNothing(PlanAll(tools, fs.files, hunks));
    for i := 0 to |hunks|
      invariant PlanAll(tools, fs.files, hunks) == Behind(ops, patched, PlanAll(tools, fs.files, hunks[i..]))
    {
      assert hunks[i..][1..] == hunks[i + 1..];
      var planned := PlanHunk(tools, fs.files, hunks[i]);
      if planned.Err? { return Err(planned.error); }
      ghost var rest := PlanAll(tools, fs.files, hunks[i + 1..]);
      if rest.Ok? {
        AppendAssociative(ops, planned.value, rest.value.ops);
        AppendAssociative(patched, [PatchedName(hunks[i])], rest.value.patched);
      }
      ops := ops + planned.value;
      patched := patched + [PatchedName(hunks[i])];
    }
    assert ops + [] == ops && patched + [] == patched;
    return Ok(Plan(ops, patched));
  }

  /** Executes up to the first operation that raises an error; false when there is one. */
  method ExecutePlan(fs: FileSystem, ops: seq<FsOp>, faulty: nat -> bool) returns (done: bool)
    modifies fs
    ensures var k := FirstFault(faulty, 0, |ops|);
      (done <==> k == |ops|) && fs.files == Exec(old(fs.files), ops[..k])
  {
    for i := 0 to |ops|
      invariant fs.files == Exec(old(fs.files), ops[..i])
      invariant FirstFault(faulty, 0, |ops|) == FirstFault(faulty, i, |ops|)
    {
      if faulty(i) { return false; }
      assert ops[..i + 1] == ops[..i] + [ops[i]];
      ExecAppend(old(fs.files), ops[..i], [ops[i]]);
      ExecOne(fs.files, ops[i]);
      match ops[i] {
        case Rm(abs) => fs.Remove(abs);
        case Write(abs, content) => fs.WriteFile(abs, content);
      }
    }
    return true;
  }

  /** A patch that fails before writing changes nothing, and one that meets an input/output error leaves
      the operations in front of it done. Without one, a patch whose hunks can follow each other has the
      outcome of its hunks one by one. */
  method ApplyPatch(tools: Tools, fs: FileSystem, patch: string, faulty: nat -> bool) returns (r: Result<seq<string>>)
    modifies fs
    ensures tools.parse(patch).None? ==> r == Err(ParseError) && fs.files == old(fs.files)
    ensures tools.parse(patch).Some? && !NoDup(AllTargets(tools.parse(patch).value)) ==>
      r == Err(DuplicateTarget(FirstRepeat(AllTargets(tools.parse(patch).value)).value)) && fs.files == old(fs.files)
    ensures match Apply(tools, old(fs.files), patch, faulty)
      case Failed(e) => r == Err(e) && fs.files == old(fs.files)
      case Interrupted(files) => r == Err(IoError) && fs.files == files
      case Patched(files, names) => r == Ok(names) && fs.files == files
    ensures (tools.parse(patch).Some? && NoDup(AllTargets(tools.parse(patch).value))
             && Followable(tools, tools.parse(patch).value) && forall i :: !faulty(i)) ==>
      match ApplyOneByOne(tools, old(fs.files), tools.parse(patch).value)
      case Failed(e) => r == Err(e) && fs.files == old(fs.files)
      case Interrupted(_) => false
      case Patched(files, names) => r == Ok(names) && fs.files == files
  {
    var parsed := tools.parse(patch);
    if parsed.None? { return Err(ParseError); }
    var hunks := parsed.value;
    if Followable(tools, hunks) { PlanMatchesOneByOne(tools, fs.files, fs.files, hunks); }
    var plan := BuildPlan(tools, fs, hunks);
    if plan.Err? { return Err(plan.error); }
    assert plan.value.ops[..|plan.value.ops|] == plan.value.ops;
    var done := ExecutePlan(fs, plan.value.ops, faulty);
    return if done then Ok(plan.value.patched) else Err(IoError);
  }

  /** Distinct files have distinct spellings, so the duplicate check passes. */
  lemma {:induction false} DistinctSpellings(tools: Tools, hunks: seq<Hunk>)
    requires DistinctTargets(tools, hunks)
    ensures NoDup(AllTargets(hunks))
  {
    if hunks != [] {
      DistinctTail(tools, hunks);
      DistinctSpellings(tools, hunks[1..]);
      var own, rest := Targets(hunks[0]), AllTargets(hunks[1..]);
      assert hunks[0] in hunks;
      NoDupIsDistinct(KeysOf(tools, own));
      NoDupIsDistinct(own);
      forall t | t in own ensures t !in rest {
        KeysComeFromTargets(tools, hunks[0], KeyOf(tools, t));
        forall h | h in hunks[1..] ensures t !in Targets(h) {
          KeysComeFromTargets(tools, h, KeyOf(tools, t));
          assert KeyOf(tools, t) !in HunkKeys(tools, h);
        }
        UnlistedTarget(hunks[1..], t);
      }
      JoinDistinct(own, rest);
    }
  }

  lemma {:induction false} UnlistedTarget(hunks: seq<Hunk>, t: string)
    requires forall h :: h in hunks ==> t !in Targets(h)
    ensures t !in AllTargets(hunks)
  {
    if hunks != [] { UnlistedTarget(hunks[1..], t); }
  }
}
