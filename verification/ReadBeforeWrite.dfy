/** Read-before-write safety: what a guarded write can replace while other writers are at work. Every
    await point of the read and write tools is a step of its own. */
module ReadBeforeWrite {
  import opened Sequences

  type Byte = b: int | 0 <= b < 0x100

  type Bytes = seq<Byte>

  type Path = string

  type OpId = nat

  const MAX_FILE_SIZE := 5 * 1024 * 1024
  const BINARY_PROBE_BYTES := 8 * 1024

  /** One version of a file: its content and the modification time it was written with. */
  datatype Version = Version(mtime: nat, content: Bytes)

  // ---- The tracker and the decision ---------------------------------------------------------------

  datatype WriteDecision = Allowed | ReadRequired | Stale

  class ReadTracker {
    var seen: map<Path, nat>

    constructor ()
      ensures seen == map[]
    {
      seen := map[];
    }

    method Record(path: Path, mtime: nat)
      modifies this
      ensures seen == old(seen)[path := mtime]
    {
      seen := seen[path := mtime];
    }

    method Expected(path: Path) returns (r: Option<nat>)
      ensures r == Lookup(seen, path)
    {
      if path in seen { return Some(seen[path]); }
      return None;
    }
  }

  function Lookup<V>(m: map<Path, V>, path: Path): Option<V> { if path in m then Some(m[path]) else None }

  function EvaluateReadBeforeWrite(seen: map<Path, nat>, path: Path, current: Option<nat>): (r: WriteDecision)
    ensures r.Allowed? <==> current.None? || Lookup(seen, path) == current
    ensures r.ReadRequired? <==> current.Some? && Lookup(seen, path).None?
  {
    if current.None? then Allowed
    else if path !in seen then ReadRequired
    else if seen[path] != current.value then Stale
    else Allowed
  }

  // ---- The steps ----------------------------------------------------------------------------------

  /** A read in flight: behind its stat, on the local path behind its probe for null bytes, or behind its
      read of the bytes. */
  datatype Reading =
    | Statted(path: Path, viaBackend: bool, mtime: nat, size: nat)
    | Sampled(path: Path, viaBackend: bool, mtime: nat)
    | Loaded(path: Path, viaBackend: bool, mtime: nat, content: Bytes)

  /** A guarded write in flight: behind its stat, behind its check, or on the local path behind its probe
      for null bytes. `known` is what the last recorded read of the path delivered, as of the check. */
  datatype Writing =
    | Inspected(path: Path, content: Bytes, atomic: bool, current: Option<nat>)
    | Checked(path: Path, content: Bytes, atomic: bool, current: Option<nat>, known: Option<Bytes>)
    | Cleared(path: Path, content: Bytes, atomic: bool, current: Option<nat>, known: Option<Bytes>)

  /** A completed write: what the check saw and what the write replaced. */
  datatype Replacement = Replacement(path: Path, atomic: bool, current: Option<nat>, known: Option<Bytes>, replaced: Option<Version>)

  datatype State = State(
    files: map<Path, Version>,
    clock: nat,                     // no modification time so far is later
    seen: map<Path, nat>,           // the tracker
    delivered: map<Path, Bytes>,    // what the read behind each tracker entry delivered
    reading: map<OpId, Reading>,
    writing: map<OpId, Writing>,
    log: seq<Replacement>)

  datatype Event =
    | ReadStat(op: OpId, path: Path, viaBackend: bool)
    | ReadProbe(op: OpId, detached: Option<Bytes>)
    | ReadBytes(op: OpId, detached: Option<Bytes>)
    | Deliver(op: OpId)
    | WriteStat(op: OpId, path: Path, content: Bytes, atomic: bool)
    | Check(op: OpId)
    | WriteProbe(op: OpId)
    | Commit(op: OpId, mtime: nat)
    | ReadRaises(op: OpId)   // the file system raises an error, which ends the operation
    | WriteRaises(op: OpId)
    | External(path: Path, change: Option<Bytes>, mtime: nat)  // another writer; None deletes

  const INIT := State(map[], 0, map[], map[], map[], map[], [])

  /** A null byte among the first 8 KB. */
  predicate IsBinary(content: Bytes) { 0 in content[..Min(|content|, BINARY_PROBE_BYTES)] }

  function MtimeOf(files: map<Path, Version>, path: Path): Option<nat> {
    if path in files then Some(files[path].mtime) else None
  }

  /** What a read in flight gets to see. A local read holds the file open, so once the path no longer
      holds the version it looked up it may still see some `detached` content; nothing when the path is
      gone and no handle keeps the file. */
  function Visible(files: map<Path, Version>, r: Reading, detached: Option<Bytes>): Option<Bytes> {
    if !r.viaBackend && detached.Some? && MtimeOf(files, r.path) != Some(r.mtime) then detached
    else if r.path in files then Some(files[r.path].content)
    else None
  }

  function Put(s: State, path: Path, content: Bytes, mtime: nat): State {
    s.(files := s.files[path := Version(mtime, content)], clock := mtime)
  }

  /** A backend write follows its check at once, a local one its probe. */
  predicate ReadyToWrite(w: Writing) { w.Cleared? || (w.Checked? && w.atomic) }

  predicate Enabled(s: State, e: Event) {
    match e
    case ReadStat(op, path, _) => op !in s.reading && path in s.files && |s.files[path].content| <= MAX_FILE_SIZE
    case ReadProbe(op, _) => op in s.reading && s.reading[op].Statted? && !s.reading[op].viaBackend
    case ReadBytes(op, _) =>
      op in s.reading && (s.reading[op].Sampled? || (s.reading[op].Statted? && s.reading[op].viaBackend))
    case Deliver(op) => op in s.reading && s.reading[op].Loaded?
    case WriteStat(op, _, _, _) => op !in s.writing
    case Check(op) => op in s.writing && s.writing[op].Inspected?
    case WriteProbe(op) => op in s.writing && s.writing[op].Checked? && !s.writing[op].atomic
    case Commit(op, mtime) => op in s.writing && ReadyToWrite(s.writing[op]) && mtime > s.clock
    case ReadRaises(op) => op in s.reading
    case WriteRaises(op) => op in s.writing
    case External(_, change, mtime) => change.Some? ==> mtime > s.clock
  }

  /** One step; an event that cannot happen leaves everything unchanged. A write through a backend
      (`atomic`) re-checks the modification time it was allowed for at the moment it writes; a local
      write does not, but is given up when its probe finds a binary file. */
  function Step(s: State, e: Event): State {
    if !Enabled(s, e) then s
    else match e
      case ReadStat(op, path, viaBackend) =>
        s.(reading := s.reading[op := Statted(path, viaBackend, s.files[path].mtime, |s.files[path].content|)])
      case ReadProbe(op, detached) =>
        var r := s.reading[op];
        var visible := Visible(s.files, r, detached);
        if visible.None? || IsBinary(visible.value[..Min(r.size, |visible.value|)]) then s.(reading := s.reading - {op})
        else s.(reading := s.reading[op := Sampled(r.path, r.viaBackend, r.mtime)])
      case ReadBytes(op, detached) =>
        var r := s.reading[op];
        var visible := Visible(s.files, r, detached);
        if visible.None? then s.(reading := s.reading - {op})
        else s.(reading := s.reading[op := Loaded(r.path, r.viaBackend, r.mtime, visible.value)])
      case Deliver(op) =>
        var r := s.reading[op];
        var done := s.(reading := s.reading - {op});
        if r.viaBackend && 0 in r.content then done
        else done.(seen := s.seen[r.path := r.mtime], delivered := s.delivered[r.path := r.content])
      case WriteStat(op, path, content, atomic) =>
        s.(writing := s.writing[op := Inspected(path, content, atomic, MtimeOf(s.files, path))])
      case Check(op) =>
        var w := s.writing[op];
        if EvaluateReadBeforeWrite(s.seen, w.path, w.current) != Allowed then s.(writing := s.writing - {op})
        else s.(writing := s.writing[op := Checked(w.path, w.content, w.atomic, w.current, Lookup(s.delivered, w.path))])
      case WriteProbe(op) =>
        var w := s.writing[op];
        if w.path in s.files && IsBinary(s.files[w.path].content) then s.(writing := s.writing - {op})
        else s.(writing := s.writing[op := Cleared(w.path, w.content, w.atomic, w.current, w.known)])
      case Commit(op, mtime) =>
        var w := s.writing[op];
        var done := s.(writing := s.writing - {op});
        if w.atomic && w.current.Some? && w.path in s.files && s.files[w.path].mtime != w.current.value then done
        else Put(done.(log := s.log + [Replacement(w.path, w.atomic, w.current, w.known, Lookup(s.files, w.path))]),
                 w.path, w.content, mtime)
      case ReadRaises(op) => s.(reading := s.reading - {op})
      case WriteRaises(op) => s.(writing := s.writing - {op})
      case External(path, None, _) => s.(files := s.files - {path})
      case External(path, Some(content), mtime) => Put(s, path, content, mtime)
  }

  function Run(s: State, events: seq<Event>): State
    decreases |events|
  {
    if events == [] then s else Run(Step(s, events[0]), events[1..])
  }

  // ---- What every step keeps ----------------------------------------------------------------------

  /** If the file on disk still has modification time `mtime`, its content is `content`. */
  ghost predicate Fits(s: State, path: Path, mtime: nat, content: Bytes) {
    && mtime <= s.clock
    && (path in s.files && s.files[path].mtime == mtime ==> s.files[path].content == content)
  }

  ghost predicate ReadingOk(s: State, r: Reading) {
    && r.mtime <= s.clock
    && (r.Loaded? ==> Fits(s, r.path, r.mtime, r.content))
  }

  ghost predicate WritingOk(s: State, w: Writing) {
    && (w.current.Some? ==> w.current.value <= s.clock)
    && (w.Cleared? ==> !w.atomic)
    && (!w.Inspected? && w.current.Some? ==> w.known.Some? && Fits(s, w.path, w.current.value, w.known.value))
  }

  /** The write replaced nothing, or the version that was checked is the version last read; a backend
      write replaced no other version than the checked one. */
  ghost predicate Sound(r: Replacement) {
    r.current.Some? && r.replaced.Some? ==>
      && (r.replaced.value.mtime == r.current.value ==> r.known == Some(r.replaced.value.content))
      && (r.atomic ==> r.replaced.value.mtime == r.current.value)
  }

  ghost predicate Inv(s: State) {
    && (forall p :: p in s.files ==> s.files[p].mtime <= s.clock)
    && (forall p :: p in s.seen ==> p in s.delivered && Fits(s, p, s.seen[p], s.delivered[p]))
    && (forall op :: op in s.reading ==> ReadingOk(s, s.reading[op]))
    && (forall op :: op in s.writing ==> WritingOk(s, s.writing[op]))
    && (forall i :: 0 <= i < |s.log| ==> Sound(s.log[i]))
  }

  /** Files that change to later versions, or vanish, disturb nothing that was recorded. */
  ghost predicate Newer(s: State, t: State) {
    && s.clock <= t.clock
    && forall p :: p in t.files ==> (p in s.files && s.files[p] == t.files[p]) || s.clock < t.files[p].mtime <= t.clock
  }

  lemma FitsLater(s: State, t: State, path: Path, mtime: nat, content: Bytes)
    requires Newer(s, t) && Fits(s, path, mtime, content)
    ensures Fits(t, path, mtime, content)
  {
  }

  lemma OpsLater(s: State, t: State)
    requires Newer(s, t) && Inv(s)
    ensures forall p :: p in s.seen ==> p in s.delivered && Fits(t, p, s.seen[p], s.delivered[p])
    ensures forall op :: op in s.reading ==> ReadingOk(t, s.reading[op])
    ensures forall op :: op in s.writing ==> WritingOk(t, s.writing[op])
  {
    hide Newer, Fits;
    assert s.clock <= t.clock by { ClockLater(s, t); }
    forall p | p in s.seen ensures p in s.delivered && Fits(t, p, s.seen[p], s.delivered[p]) {
      FitsLater(s, t, p, s.seen[p], s.delivered[p]);
    }
    forall op | op in s.reading ensures ReadingOk(t, s.reading[op]) {
      var r := s.reading[op];
      assert ReadingOk(s, r);
      if r.Loaded? { FitsLater(s, t, r.path, r.mtime, r.content); }
    }
    forall op | op in s.writing ensures WritingOk(t, s.writing[op]) {
      var w := s.writing[op];
      assert WritingOk(s, w);
      if !w.Inspected? && w.current.Some? { FitsLater(s, t, w.path, w.current.value, w.known.value); }
    }
  }

  lemma ClockLater(s: State, t: State)
    requires Newer(s, t)
    ensures s.clock <= t.clock
  {
  }

  /** What a write that goes through replaces, as its check allowed it. */
  lemma SoundCommit(s: State, w: Writing)
    requires WritingOk(s, w) && ReadyToWrite(w)
    requires !(w.atomic && w.current.Some? && w.path in s.files && s.files[w.path].mtime != w.current.value)
    ensures Sound(Replacement(w.path, w.atomic, w.current, w.known, Lookup(s.files, w.path)))
  {
  }

  /** The log grows by one sound entry or not at all. */
  lemma CommitLogs(s: State, op: OpId, mtime: nat)
    requires Inv(s) && Enabled(s, Commit(op, mtime))
    ensures var t := Step(s, Commit(op, mtime));
      t.log == s.log || (|t.log| == |s.log| + 1 && t.log[..|s.log|] == s.log && Sound(t.log[|s.log|]))
  {
    hide Fits;
    assert WritingOk(s, s.writing[op]);
    var t := Step(s, Commit(op, mtime));
    if t.log != s.log { SoundCommit(s, s.writing[op]); }
  }

  /** Only files changed, to newer versions, and a write may have left. */
  lemma FilesChangedInv(s: State, t: State)
    requires Inv(s) && Newer(s, t)
    requires t.seen == s.seen && t.delivered == s.delivered && t.reading == s.reading
    requires forall o :: o in t.writing ==> o in s.writing && t.writing[o] == s.writing[o]
    requires forall p :: p in t.files ==> t.files[p].mtime <= t.clock
    requires forall i :: 0 <= i < |t.log| ==> Sound(t.log[i])
    ensures Inv(t)
  {
    hide Fits, Sound, Newer;
    OpsLater(s, t);
  }

  lemma CommitChangesFiles(s: State, op: OpId, mtime: nat)
    requires Enabled(s, Commit(op, mtime)) && forall p :: p in s.files ==> s.files[p].mtime <= s.clock
    ensures var t := Step(s, Commit(op, mtime));
      && Newer(s, t) && t.seen == s.seen && t.delivered == s.delivered && t.reading == s.reading
      && t.writing == s.writing - {op}
      && forall p :: p in t.files ==> t.files[p].mtime <= t.clock
  {
    hide IsBinary;
  }

  lemma CommitInv(s: State, op: OpId, mtime: nat)
    requires Inv(s) && Enabled(s, Commit(op, mtime))
    ensures Inv(Step(s, Commit(op, mtime)))
  {
    hide Fits, Sound, WritingOk, ReadingOk, Step, Newer;
    var t := Step(s, Commit(op, mtime));
    CommitChangesFiles(s, op, mtime);
    CommitLogs(s, op, mtime);
    forall i | 0 <= i < |t.log| ensures Sound(t.log[i]) {
      if i < |s.log| { assert t.log[i] == s.log[i]; }
    }
    FilesChangedInv(s, t);
  }

  lemma ExternalInv(s: State, path: Path, change: Option<Bytes>, mtime: nat)
    requires Inv(s) && Enabled(s, External(path, change, mtime))
    ensures Inv(Step(s, External(path, change, mtime)))
  {
    hide Fits, Sound, WritingOk, ReadingOk;
    FilesChangedInv(s, Step(s, External(path, change, mtime)));
  }

  /** A step that concerns one read in flight only. */
  lemma OneReadingInv(s: State, t: State, op: OpId)
    requires Inv(s) && t == s.(reading := t.reading)
    requires forall o :: o in t.reading && o != op ==> o in s.reading && t.reading[o] == s.reading[o]
    requires op in t.reading ==> ReadingOk(s, t.reading[op])
    ensures Inv(t)
  {
    hide Fits;
    OpsLater(s, t);
    if op in t.reading && t.reading[op].Loaded? {
      FitsLater(s, t, t.reading[op].path, t.reading[op].mtime, t.reading[op].content);
    }
  }

  /** A step that concerns one write in flight only. */
  lemma OneWritingInv(s: State, t: State, op: OpId)
    requires Inv(s) && t == s.(writing := t.writing)
    requires forall o :: o in t.writing && o != op ==> o in s.writing && t.writing[o] == s.writing[o]
    requires op in t.writing ==> WritingOk(s, t.writing[op])
    ensures Inv(t)
  {
    hide Fits;
    OpsLater(s, t);
    if op in t.writing {
      var w := t.writing[op];
      if !w.Inspected? && w.current.Some? { FitsLater(s, t, w.path, w.current.value, w.known.value); }
    }
  }

  lemma ReadInv(s: State, e: Event)
    requires Inv(s) && Enabled(s, e) && (e.ReadStat? || e.ReadProbe? || e.ReadBytes? || e.ReadRaises?)
    ensures Inv(Step(s, e))
  {
    if !e.ReadStat? { assert ReadingOk(s, s.reading[e.op]); }
    OneReadingInv(s, Step(s, e), e.op);
  }

  lemma DeliverInv(s: State, op: OpId)
    requires Inv(s) && Enabled(s, Deliver(op))
    ensures Inv(Step(s, Deliver(op)))
  {
    hide Fits;
    var t := Step(s, Deliver(op));
    assert ReadingOk(s, s.reading[op]);
    OpsLater(s, t);
  }

  lemma WriteStepInv(s: State, e: Event)
    requires Inv(s) && Enabled(s, e) && (e.WriteStat? || e.Check? || e.WriteProbe? || e.WriteRaises?)
    ensures Inv(Step(s, e))
  {
    if !e.WriteStat? {
      var w := s.writing[e.op];
      assert WritingOk(s, w);
      if w.path in s.seen { assert Fits(s, w.path, s.seen[w.path], s.delivered[w.path]); }
    }
    OneWritingInv(s, Step(s, e), e.op);
  }

  lemma StepInv(s: State, e: Event)
    requires Inv(s)
    ensures Inv(Step(s, e))
  {
    hide Inv;
    if Enabled(s, e) {
      match e
      case Commit(op, mtime) => CommitInv(s, op, mtime);
      case External(path, change, mtime) => ExternalInv(s, path, change, mtime);
      case WriteStat(_, _, _, _) => WriteStepInv(s, e);
      case Check(_) => WriteStepInv(s, e);
      case WriteProbe(_) => WriteStepInv(s, e);
      case WriteRaises(_) => WriteStepInv(s, e);
      case Deliver(op) => DeliverInv(s, op);
      case _ => ReadInv(s, e);
    }
  }

  lemma {:induction false} RunInv(s: State, events: seq<Event>)
    requires Inv(s)
    ensures Inv(Run(s, events))
    decreases |events|
  {
    if events != [] {
      StepInv(s, events[0]);
      RunInv(Step(s, events[0]), events[1..]);
    }
  }

  // ---- Whole runs ---------------------------------------------------------------------------------

  /** In any interleaving of reads, guarded writes and other writers, a backend write over a file that
      existed at its check replaces exactly the version whose content the last recorded read delivered,
      even if another write fell between the stat and the read of that read, or between check and
      write. */
  lemma BackendWritesReplaceWhatWasRead(events: seq<Event>, i: nat)
    requires i < |Run(INIT, events).log|
    ensures var r := Run(INIT, events).log[i];
      r.atomic && r.current.Some? && r.replaced.Some? ==>
        r.replaced.value.mtime == r.current.value && r.known == Some(r.replaced.value.content)
  {
    RunInv(INIT, events);
    assert Sound(Run(INIT, events).log[i]);
  }

  /** A local write does so whenever the version it replaces still has the time its check saw;
      `OverwriteIff` says for which schedules that is. */
  lemma LocalWritesReplaceWhatWasChecked(events: seq<Event>, i: nat)
    requires i < |Run(INIT, events).log|
    ensures var r := Run(INIT, events).log[i];
      r.current.Some? && r.replaced.Some? && r.replaced.value.mtime == r.current.value ==>
        r.known == Some(r.replaced.value.content)
  {
    RunInv(INIT, events);
    assert Sound(Run(INIT, events).log[i]);
  }

  /** A write into the gap before the commit is lost by a local write, text or not, and refused by a
      backend write. */
  lemma GapBetweenCheckAndCommit(s: State, op: OpId, path: Path, content: Bytes, m1: nat, m2: nat)
    requires Inv(s) && op in s.writing && ReadyToWrite(s.writing[op]) && s.writing[op].path == path
    requires s.writing[op].current.Some? && s.clock < m1 < m2
    ensures var t := Step(Step(s, External(path, Some(content), m1)), Commit(op, m2));
      if s.writing[op].Checked? then t.log == s.log && t.files[path] == Version(m1, content)
      else |t.log| == |s.log| + 1 && t.log[|s.log|].replaced == Some(Version(m1, content))
           && t.log[|s.log|].current != Some(m1) && t.files[path] == Version(m2, s.writing[op].content)
  {
    assert WritingOk(s, s.writing[op]);
  }

  // ---- The window between the stat of a write and its commit --------------------------------------

  /** The step creates, rewrites or deletes the file. */
  predicate Changes(s: State, e: Event, path: Path) {
    Enabled(s, e) && match e
      case External(p, change, _) => p == path && (change.Some? || path in s.files)
      case Commit(op, _) => s.writing[op].path == path && Step(s, e).log != s.log
      case _ => false
  }

  /** A change other than a deletion leaves a file. */
  predicate Leaves(e: Event) { !(e.External? && e.change.None?) }

  ghost predicate Untouched(s: State, events: seq<Event>, path: Path)
    decreases |events|
  {
    events == [] || (!Changes(s, events[0], path) && Untouched(Step(s, events[0]), events[1..], path))
  }

  /** Whether the last change in a window leaves a file; None when nothing changes it. */
  function LastChange(s: State, events: seq<Event>, path: Path): Option<bool>
    decreases |events|
  {
    if events == [] then None
    else
      var later := LastChange(Step(s, events[0]), events[1..], path);
      if later.Some? then later
      else if Changes(s, events[0], path) then Some(Leaves(events[0]))
      else None
  }

  lemma {:induction false} UntouchedIffNoChange(s: State, events: seq<Event>, path: Path)
    ensures Untouched(s, events, path) <==> LastChange(s, events, path) == None
    decreases |events|
  {
    if events != [] { UntouchedIffNoChange(Step(s, events[0]), events[1..], path); }
  }

  predicate OfReading(e: Event) { e.ReadStat? || e.ReadProbe? || e.ReadBytes? || e.Deliver? || e.ReadRaises? }

  predicate OfWriting(e: Event) { e.WriteStat? || e.Check? || e.WriteProbe? || e.WriteRaises? }

  lemma ReadingStep(s: State, e: Event)
    requires OfReading(e)
    ensures var t := Step(s, e); t.files == s.files && t.clock == s.clock && t.writing == s.writing && t.log == s.log
  {
    hide IsBinary, Visible;
  }

  /** A step of one write in flight concerns that write only, and at most moves it on. */
  ghost predicate MovesOn(s: State, t: State, op: OpId) {
    && t == s.(writing := t.writing)
    && (forall o :: o in t.writing && o != op ==> o in s.writing && t.writing[o] == s.writing[o])
    && (op in t.writing ==> op in s.writing && SameWrite(s.writing[op], t.writing[op]))
  }

  lemma CheckMovesOn(s: State, op: OpId)
    ensures MovesOn(s, Step(s, Check(op)), op)
  {
    hide EvaluateReadBeforeWrite;
  }

  lemma ProbeMovesOn(s: State, op: OpId)
    ensures MovesOn(s, Step(s, WriteProbe(op)), op)
  {
    hide IsBinary;
  }

  lemma RaiseMovesOn(s: State, op: OpId)
    ensures MovesOn(s, Step(s, WriteRaises(op)), op)
  {
  }

  lemma WritingStep(s: State, e: Event)
    requires OfWriting(e)
    ensures var t := Step(s, e); t.files == s.files && t.clock == s.clock && t.log == s.log
    ensures var t := Step(s, e);
      forall o :: o in t.writing && !(e.WriteStat? && e.op == o) ==> o in s.writing && SameWrite(s.writing[o], t.writing[o])
  {
    if !e.WriteStat? {
      hide Step;
      match e
      case Check(op) => CheckMovesOn(s, op);
      case WriteProbe(op) => ProbeMovesOn(s, op);
      case WriteRaises(op) => RaiseMovesOn(s, op);
    }
  }

  lemma CommitStep(s: State, op: OpId, mtime: nat)
    requires Enabled(s, Commit(op, mtime))
    ensures var t, path := Step(s, Commit(op, mtime)), s.writing[op].path;
      && t.writing == s.writing - {op} && s.clock <= t.clock
      && (if t.log == s.log then t.files == s.files
          else t.files == s.files[path := Version(mtime, s.writing[op].content)])
  {
    hide IsBinary, EvaluateReadBeforeWrite;
  }

  lemma ExternalStep(s: State, path: Path, change: Option<Bytes>, mtime: nat)
    requires Enabled(s, External(path, change, mtime))
    ensures var t := Step(s, External(path, change, mtime));
      && t.writing == s.writing && s.clock <= t.clock
      && t.files == (if change.None? then s.files - {path} else s.files[path := Version(mtime, change.value)])
  {
    hide IsBinary, EvaluateReadBeforeWrite;
  }

  lemma StepFiles(s: State, e: Event, path: Path)
    ensures var t := Step(s, e);
      && s.clock <= t.clock
      && (!Changes(s, e, path) ==> Lookup(t.files, path) == Lookup(s.files, path))
      && (Changes(s, e, path) && !Leaves(e) ==> path !in t.files)
      && (Changes(s, e, path) && Leaves(e) ==> path in t.files && t.files[path].mtime > s.clock)
  {
    if Enabled(s, e) {
      match e
      case Commit(op, mtime) =>
        CommitStep(s, op, mtime);
        assert mtime > s.clock;
        hide Step;
      case External(p, change, mtime) =>
        ExternalStep(s, p, change, mtime);
        assert change.Some? ==> mtime > s.clock;
        hide Step;
      case _ =>
        if OfReading(e) { ReadingStep(s, e); } else { WritingStep(s, e); }
        hide Step;
    }
  }

  /** The file is there at the end of a window exactly when the last change leaves it, or nothing changed
      it and it was there. */
  lemma {:induction false} ThereIffLastChange(s: State, events: seq<Event>, path: Path)
    ensures path in Run(s, events).files <==>
      if LastChange(s, events, path).Some? then LastChange(s, events, path).value else path in s.files
    decreases |events|
  {
    if events != [] {
      StepFiles(s, events[0], path);
      hide Step, Changes;
      ThereIffLastChange(Step(s, events[0]), events[1..], path);
    }
  }

  /** Once the file is gone or newer than `m`, it stays so: no version comes back. */
  lemma {:induction false} Superseded(s: State, events: seq<Event>, path: Path, m: nat)
    requires m <= s.clock && (path in s.files ==> s.files[path].mtime > m)
    ensures path in Run(s, events).files ==> Run(s, events).files[path].mtime > m
    decreases |events|
  {
    if events != [] {
      StepFiles(s, events[0], path);
      hide Step, Changes;
      Superseded(Step(s, events[0]), events[1..], path, m);
    }
  }

  /** The very version is still there at the end of a window exactly when nothing touched it. */
  lemma {:induction false} VersionKeptIff(s: State, events: seq<Event>, path: Path)
    requires Inv(s) && path in s.files
    ensures Lookup(Run(s, events).files, path) == Some(s.files[path]) <==> Untouched(s, events, path)
    decreases |events|
  {
    if events != [] {
      var t := Step(s, events[0]);
      StepFiles(s, events[0], path);
      StepInv(s, events[0]);
      hide Step, Changes;
      if Changes(s, events[0], path) {
        Superseded(t, events[1..], path, s.files[path].mtime);
      } else {
        VersionKeptIff(t, events[1..], path);
      }
    }
  }

  /** A version that was not there at the start of a window is newer. */
  lemma {:induction false} AppearedIsNewer(s: State, events: seq<Event>, path: Path, m: nat)
    requires path !in s.files && m <= s.clock
    ensures path in Run(s, events).files ==> Run(s, events).files[path].mtime > m
    decreases |events|
  {
    Superseded(s, events, path, m);
  }

  ghost predicate NoRestart(events: seq<Event>, op: OpId) { forall e :: e in events ==> !(e.WriteStat? && e.op == op) }

  predicate SameWrite(v: Writing, w: Writing) {
    v.path == w.path && v.content == w.content && v.atomic == w.atomic && v.current == w.current
  }

  lemma StepKeepsWrite(s: State, e: Event, op: OpId)
    requires op in Step(s, e).writing && !(e.WriteStat? && e.op == op)
    ensures op in s.writing && SameWrite(s.writing[op], Step(s, e).writing[op])
  {
    if Enabled(s, e) {
      hide Step;
      match e
      case Commit(o, mtime) => CommitStep(s, o, mtime);
      case External(p, change, mtime) => ExternalStep(s, p, change, mtime);
      case _ => if OfReading(e) { ReadingStep(s, e); } else { WritingStep(s, e); }
    }
  }

  lemma {:induction false} RunKeepsWrite(s: State, events: seq<Event>, op: OpId)
    requires op in Run(s, events).writing && NoRestart(events, op)
    ensures op in s.writing && SameWrite(s.writing[op], Run(s, events).writing[op])
    decreases |events|
  {
    if events != [] {
      assert events[0] in events && forall e :: e in events[1..] ==> e in events;
      hide Step;
      RunKeepsWrite(Step(s, events[0]), events[1..], op);
      StepKeepsWrite(s, events[0], op);
    }
  }

  /** The events between the stat of a write and the moment it writes: in `s` it has just looked, and
      behind them it is ready. */
  ghost predicate Window(s: State, events: seq<Event>, op: OpId) {
    && Inv(s) && op in s.writing && s.writing[op].Inspected?
    && s.writing[op].current == MtimeOf(s.files, s.writing[op].path)
    && NoRestart(events, op)
    && op in Run(s, events).writing && ReadyToWrite(Run(s, events).writing[op])
  }

  /** What the write does behind the window. */
  function Outcome(s: State, events: seq<Event>, op: OpId, mtime: nat): Option<Replacement>
    requires op in Run(s, events).writing
  {
    var t := Run(s, events);
    var u := Step(t, Commit(op, mtime));
    if |u.log| > |t.log| then Some(u.log[|t.log|]) else None
  }

  /** The outcome of a write that is ready, read off the files at that moment. */
  lemma CommitOutcome(t: State, op: OpId, mtime: nat)
    requires Inv(t) && op in t.writing && ReadyToWrite(t.writing[op]) && mtime > t.clock
    ensures var w, u := t.writing[op], Step(t, Commit(op, mtime));
      if w.atomic && w.current.Some? && w.path in t.files && t.files[w.path].mtime != w.current.value
      then u.log == t.log && u.files == t.files
      else u.log == t.log + [Replacement(w.path, w.atomic, w.current, w.known, Lookup(t.files, w.path))]
           && u.files == t.files[w.path := Version(mtime, w.content)]
    ensures var w := t.writing[op];
      w.current.Some? && w.path in t.files && t.files[w.path].mtime == w.current.value ==>
        w.known == Some(t.files[w.path].content)
  {
    assert WritingOk(t, t.writing[op]);
  }

  /** A write over an existing file, in any schedule of its window. If nothing touched the file, it replaces
      exactly the version it checked, which holds what was last read. If the last change deleted the file,
      it replaces nothing. If the last change left one, a backend write is refused and a local one replaces
      a version it never saw. */
  lemma OverwriteIff(s: State, events: seq<Event>, op: OpId, mtime: nat)
    requires Window(s, events, op) && mtime > Run(s, events).clock && s.writing[op].current.Some?
    ensures var w, path := s.writing[op], s.writing[op].path;
      var outcome, last := Outcome(s, events, op, mtime), LastChange(s, events, path);
      && path in s.files
      && (outcome.None? <==> w.atomic && last == Some(true))
      && (outcome.Some? ==>
           && (outcome.value.replaced == Some(s.files[path]) <==> Untouched(s, events, path))
           && (outcome.value.replaced == None <==> last == Some(false))
           && (Untouched(s, events, path) ==> outcome.value.known == Some(s.files[path].content)))
  {
    hide Step, Inv, LastChange, Untouched, Run;
    var path, t := s.writing[op].path, Run(s, events);
    RunInv(s, events);
    RunKeepsWrite(s, events, op);
    UntouchedIffNoChange(s, events, path);
    VersionKeptIff(s, events, path);
    ThereIffLastChange(s, events, path);
    CommitOutcome(t, op, mtime);
    TimeTellsVersion(s, events, path);
  }

  /** The time alone tells whether the version is still the one that was there. */
  lemma TimeTellsVersion(s: State, events: seq<Event>, path: Path)
    requires Inv(s) && path in s.files
    ensures MtimeOf(Run(s, events).files, path) == Some(s.files[path].mtime) <==>
      Lookup(Run(s, events).files, path) == Some(s.files[path])
  {
    VersionKeptIff(s, events, path);
    if !Untouched(s, events, path) { TouchedIsNewer(s, events, path); }
  }

  lemma {:induction false} TouchedIsNewer(s: State, events: seq<Event>, path: Path)
    requires Inv(s) && path in s.files && !Untouched(s, events, path)
    ensures path in Run(s, events).files ==> Run(s, events).files[path].mtime > s.files[path].mtime
    decreases |events|
  {
    var t := Step(s, events[0]);
    StepFiles(s, events[0], path);
    StepInv(s, events[0]);
    hide Step, Changes;
    if Changes(s, events[0], path) {
      Superseded(t, events[1..], path, s.files[path].mtime);
    } else {
      TouchedIsNewer(t, events[1..], path);
    }
  }

  /** A write whose check saw no file goes through on either path. It replaces a version it never saw exactly
      when the last change in its window leaves one. */
  lemma NewFileClobbersIff(s: State, events: seq<Event>, op: OpId, mtime: nat)
    requires Window(s, events, op) && mtime > Run(s, events).clock && s.writing[op].current.None?
    ensures var w, t := s.writing[op], Run(s, events);
      var outcome := Outcome(s, events, op, mtime);
      && outcome.Some? && outcome.value.replaced == Lookup(t.files, w.path)
      && Step(t, Commit(op, mtime)).files == t.files[w.path := Version(mtime, w.content)]
      && (outcome.value.replaced.Some? <==> LastChange(s, events, w.path) == Some(true))
      && (outcome.value.replaced.Some? ==> outcome.value.replaced.value.mtime > s.clock)
  {
    hide Step, Inv, LastChange, Run;
    var path, t := s.writing[op].path, Run(s, events);
    RunInv(s, events);
    RunKeepsWrite(s, events, op);
    ThereIffLastChange(s, events, path);
    AppearedIsNewer(s, events, path, s.clock);
    CommitOutcome(t, op, mtime);
  }

  lemma {:induction false} RunAppend(s: State, first: seq<Event>, second: seq<Event>)
    ensures Run(s, first + second) == Run(Run(s, first), second)
    decreases |first|
  {
    hide Step;
    if first == [] {
      assert first + second == second;
    } else {
      assert (first + second)[1..] == first[1..] + second;
      RunAppend(Step(s, first[0]), first[1..], second);
    }
  }

  lemma RunTwo(s: State, first: Event, second: Event)
    ensures Run(s, [first, second]) == Step(Step(s, first), second)
  {
    hide Step;
    assert [first, second][1..] == [second] && [second][1..] == [];
    assert Run(Step(s, first), [second]) == Run(Step(Step(s, first), second), []);
  }

  lemma RunFour(s: State, e1: Event, e2: Event, e3: Event, e4: Event)
    ensures Run(s, [e1, e2, e3, e4]) == Step(Step(Step(Step(s, e1), e2), e3), e4)
  {
    hide Step;
    assert [e1, e2, e3, e4] == [e1, e2] + [e3, e4];
    RunAppend(s, [e1, e2], [e3, e4]);
    RunTwo(s, e1, e2);
    RunTwo(Step(Step(s, e1), e2), e3, e4);
  }

  /** Such a run: a backend write looks, finds nothing and is allowed, while another writer creates the
      file; the write goes through and the other content was never read. */
  lemma NewFileClobbers(path: Path, content: Bytes, other: Bytes)
    ensures var t := Run(INIT, [WriteStat(0, path, content, true), External(path, Some(other), 1), Check(0), Commit(0, 2)]);
      && t.files == map[path := Version(2, content)]
      && t.log == [Replacement(path, true, None, None, Some(Version(1, other)))]
  {
    var e1, e2, e3, e4 := WriteStat(0, path, content, true), External(path, Some(other), 1), Check(0), Commit(0, 2);
    RunFour(INIT, e1, e2, e3, e4);
    var s1 := Step(INIT, e1);
    assert s1 == INIT.(writing := map[0 := Inspected(path, content, true, None)]);
    var s2 := Step(s1, e2);
    assert s2 == s1.(files := map[path := Version(1, other)], clock := 1);
    var s3 := Step(s2, e3);
    assert s3 == s2.(writing := map[0 := Checked(path, content, true, None, None)]);
    assert Step(s3, e4).files == map[path := Version(2, content)];
  }

  lemma ReadStarts(s: State, op: OpId, path: Path)
    requires op !in s.reading && path in s.files && |s.files[path].content| <= MAX_FILE_SIZE
    ensures Step(s, ReadStat(op, path, false))
         == s.(reading := s.reading[op := Statted(path, false, s.files[path].mtime, |s.files[path].content|)])
  {
  }

  lemma ReadProbed(s: State, op: OpId, path: Path)
    requires op !in s.reading && path in s.files && !IsBinary(s.files[path].content)
    ensures var v := s.files[path];
      Step(s.(reading := s.reading[op := Statted(path, false, v.mtime, |v.content|)]), ReadProbe(op, None))
        == s.(reading := s.reading[op := Sampled(path, false, v.mtime)])
  {
    hide IsBinary;
    var v := s.files[path];
    assert v.content[..Min(|v.content|, |v.content|)] == v.content;
    assert s.reading[op := Statted(path, false, v.mtime, |v.content|)][op := Sampled(path, false, v.mtime)]
      == s.reading[op := Sampled(path, false, v.mtime)];
  }

  lemma ReadEnds(s: State, op: OpId, path: Path)
    requires op !in s.reading && path in s.files
    ensures var v := s.files[path];
      Step(Step(s.(reading := s.reading[op := Sampled(path, false, v.mtime)]), ReadBytes(op, None)), Deliver(op))
        == s.(seen := s.seen[path := v.mtime], delivered := s.delivered[path := v.content])
  {
    hide IsBinary;
    var v := s.files[path];
    var s3 := Step(s.(reading := s.reading[op := Sampled(path, false, v.mtime)]), ReadBytes(op, None));
    assert s3 == s.(reading := s.reading[op := Loaded(path, false, v.mtime, v.content)]);
    assert s3.reading - {op} == s.reading;
  }

  /** A local read from its stat to its delivery, with nobody in between. */
  lemma ReadWhole(s: State, op: OpId, path: Path)
    requires op !in s.reading && path in s.files
    requires |s.files[path].content| <= MAX_FILE_SIZE && !IsBinary(s.files[path].content)
    ensures Run(s, [ReadStat(op, path, false), ReadProbe(op, None), ReadBytes(op, None), Deliver(op)])
         == s.(seen := s.seen[path := s.files[path].mtime], delivered := s.delivered[path := s.files[path].content])
  {
    hide IsBinary, Step, Run;
    RunFour(s, ReadStat(op, path, false), ReadProbe(op, None), ReadBytes(op, None), Deliver(op));
    ReadStarts(s, op, path);
    ReadProbed(s, op, path);
    ReadEnds(s, op, path);
  }

  /** A local write of a file just read, up to the moment it writes, and a foreign write in front of that. */
  lemma OvertakenWrite(s: State, op: OpId, path: Path, content: Bytes, other: Bytes, m1: nat, m2: nat)
    requires op !in s.writing && path in s.files && !IsBinary(s.files[path].content)
    requires Lookup(s.seen, path) == Some(s.files[path].mtime) && s.clock < m1 < m2
    ensures var t := Step(Step(Run(s, [WriteStat(op, path, content, false), Check(op)]), WriteProbe(op)), External(path, Some(other), m1));
      var u := Step(t, Commit(op, m2));
      && u.files == s.files[path := Version(m2, content)]
      && u.log == s.log + [Replacement(path, false, Some(s.files[path].mtime), Lookup(s.delivered, path), Some(Version(m1, other)))]
  {
    hide IsBinary;
    RunTwo(s, WriteStat(op, path, content, false), Check(op));
    WriteDecided(s, op, path, content, false);
    var w := Checked(path, content, false, MtimeOf(s.files, path), Lookup(s.delivered, path));
    WriteProbed(s, op, w);
    var cleared := Cleared(path, content, false, w.current, w.known);
    var s3 := s.(writing := s.writing[op := cleared]);
    var t := Step(s3, External(path, Some(other), m1));
    assert t == s3.(files := s.files[path := Version(m1, other)], clock := m1);
    assert s.files[path := Version(m1, other)][path := Version(m2, content)] == s.files[path := Version(m2, content)];
  }

  /** A run in which a local write loses a foreign one although the file was read and checked. */
  lemma LocalWriteLosesUpdate(path: Path, first: Bytes, other: Bytes, content: Bytes)
    requires |first| <= MAX_FILE_SIZE && !IsBinary(first)
    ensures exists events ::
      Run(INIT, events).log == [Replacement(path, false, Some(1), Some(first), Some(Version(2, other)))]
  {
    hide IsBinary, Step, Run;
    var create := External(path, Some(first), 1);
    var created := INIT.(files := map[path := Version(1, first)], clock := 1);
    CreatesFirst(path, first);
    var read := [ReadStat(0, path, false), ReadProbe(0, None), ReadBytes(0, None), Deliver(0)];
    ReadWhole(created, 0, path);
    var known := created.(seen := map[path := 1], delivered := map[path := first]);
    OvertakenWrite(known, 0, path, content, other, 2, 3);
    var decide, finish := [WriteStat(0, path, content, false), Check(0)],
      [WriteProbe(0), External(path, Some(other), 2), Commit(0, 3)];
    RunThree(Run(known, decide), finish[0], finish[1], finish[2]);
    RunAppend(INIT, [create], read);
    RunAppend(INIT, [create] + read, decide);
    RunAppend(INIT, [create] + read + decide, finish);
    assert Run(INIT, [create] + read) == known;
    assert Run(INIT, [create] + read + decide + finish).log
      == [] + [Replacement(path, false, Some(1), Some(first), Some(Version(2, other)))];
  }

  lemma CreatesFirst(path: Path, first: Bytes)
    ensures Run(INIT, [External(path, Some(first), 1)]) == INIT.(files := map[path := Version(1, first)], clock := 1)
  {
    var e := External(path, Some(first), 1);
    assert [e][1..] == [];
    assert Run(INIT, [e]) == Run(Step(INIT, e), []);
  }

  lemma RunThree(s: State, e1: Event, e2: Event, e3: Event)
    ensures Run(s, [e1, e2, e3]) == Step(Step(Step(s, e1), e2), e3)
  {
    hide Step;
    assert [e1, e2, e3] == [e1, e2] + [e3] && [e3][1..] == [];
    RunAppend(s, [e1, e2], [e3]);
    RunTwo(s, e1, e2);
    assert Run(Step(Step(s, e1), e2), [e3]) == Run(Step(Step(Step(s, e1), e2), e3), []);
  }

  /** A write is never recorded as a read: right after a write the file cannot be overwritten again
      before it is read. */
  lemma WriteNeedsFreshRead(s: State, op: OpId, mtime: nat)
    requires Inv(s) && Enabled(s, Commit(op, mtime)) && Step(s, Commit(op, mtime)).log != s.log
    ensures var t, path := Step(s, Commit(op, mtime)), s.writing[op].path;
      && MtimeOf(t.files, path) == Some(mtime)
      && EvaluateReadBeforeWrite(t.seen, path, Some(mtime)) != Allowed
  {
    var path := s.writing[op].path;
    if path in s.seen { assert Fits(s, path, s.seen[path], s.delivered[path]); }
  }

  /** A guarded write up to its decision, with nobody in between. */
  lemma WriteDecided(s: State, op: OpId, path: Path, content: Bytes, atomic: bool)
    requires op !in s.writing
    ensures Step(s, WriteStat(op, path, content, atomic))
         == s.(writing := s.writing[op := Inspected(path, content, atomic, MtimeOf(s.files, path))])
    ensures var t := Step(Step(s, WriteStat(op, path, content, atomic)), Check(op));
      var current := MtimeOf(s.files, path);
      t == if EvaluateReadBeforeWrite(s.seen, path, current) != Allowed then s
           else s.(writing := s.writing[op := Checked(path, content, atomic, current, Lookup(s.delivered, path))])
  {
    var s1 := Step(s, WriteStat(op, path, content, atomic));
    assert s1.writing - {op} == s.writing;
  }

  lemma WriteProbed(s: State, op: OpId, w: Writing)
    requires op !in s.writing && w.Checked? && !w.atomic
    ensures Step(s.(writing := s.writing[op := w]), WriteProbe(op)) ==
      if w.path in s.files && IsBinary(s.files[w.path].content) then s
      else s.(writing := s.writing[op := Cleared(w.path, w.content, w.atomic, w.current, w.known)])
  {
    hide IsBinary;
    assert s.writing[op := w] - {op} == s.writing;
  }

  lemma WriteAbandoned(s: State, op: OpId, w: Writing)
    requires op !in s.writing
    ensures Step(s.(writing := s.writing[op := w]), WriteRaises(op)) == s
  {
    assert s.writing[op := w] - {op} == s.writing;
  }

  lemma WriteCommitted(s: State, op: OpId, w: Writing, mtime: nat)
    requires op !in s.writing && ReadyToWrite(w) && w.current == MtimeOf(s.files, w.path) && mtime > s.clock
    ensures var t := Step(s.(writing := s.writing[op := w]), Commit(op, mtime));
      t.files == s.files[w.path := Version(mtime, w.content)] && t.writing == s.writing && |t.log| == |s.log| + 1
  {
    assert s.writing[op := w] - {op} == s.writing;
  }

  // ---- The tools ----------------------------------------------------------------------------------

  datatype ReadResult = Content(content: Bytes) | NotFound | TooLarge | BinaryFile | ReadOutsideRoot | ReadRaised | Underway

  datatype WriteResult =
    | Written(size: nat)
    | ReadRequiredError
    | StaleFile
    | BinaryRefused
    | OutsideRoot
    | ReadOnly
    | WriteFailed
    | Raised
    | Pending

  /** The errors a backend can raise besides the missing file. */
  datatype Fault = SecurityFault | ReadOnlyFault | StaleFault | FilesystemFault | UntypedFault

  /** What a write answers to an error of the backend; what is not typed is raised again. */
  function BackendErrorToJson(fault: Fault): WriteResult {
    match fault
    case SecurityFault => OutsideRoot
    case ReadOnlyFault => ReadOnly
    case StaleFault => StaleFile
    case FilesystemFault => WriteFailed
    case UntypedFault => Raised
  }

  function ReadErrorToJson(fault: Fault): ReadResult { if fault.SecurityFault? then ReadOutsideRoot else ReadRaised }

  /** The read and write tools over one file system and one tracker. Each method is one synchronous stretch
      between two awaits of a tool, and one step of the protocol; `Underway` and `Pending` say that the
      tool goes on. */
  class FileTools {
    var files: map<Path, Version>
    var clock: nat
    const tracker: ReadTracker
    var reading: map<OpId, Reading>
    var writing: map<OpId, Writing>
    var delivered: map<Path, Bytes>  // what the model was given
    ghost var log: seq<Replacement>

    ghost function View(): State
      reads this, tracker
    {
      State(files, clock, tracker.seen, delivered, reading, writing, log)
    }

    constructor ()
      ensures View() == INIT && fresh(tracker)
    {
      files, clock, reading, writing := map[], 0, map[], map[];
      delivered, log := map[], [];
      tracker := new ReadTracker();
    }

    /** Up to the answer of `stat`. */
    method StatForRead(op: OpId, path: Path, viaBackend: bool) returns (r: ReadResult)
      requires op !in reading
      modifies this`reading
      ensures View() == Step(old(View()), ReadStat(op, path, viaBackend))
      ensures r == if path !in files then NotFound
                   else if |files[path].content| > MAX_FILE_SIZE then TooLarge else Underway
    {
      if path !in files { return NotFound; }
      var stat := files[path];
      if |stat.content| > MAX_FILE_SIZE { return TooLarge; }
      reading := reading[op := Statted(path, viaBackend, stat.mtime, |stat.content|)];
      return Underway;
    }

    /** The local probe for null bytes. */
    method ProbeForRead(op: OpId, detached: Option<Bytes>) returns (r: ReadResult)
      requires Enabled(View(), ReadProbe(op, detached))
      modifies this`reading
      ensures View() == Step(old(View()), ReadProbe(op, detached))
      ensures r == if Visible(files, old(reading)[op], detached).None? then NotFound
                   else if op in reading then Underway else BinaryFile
    {
      var reader := reading[op];
      var visible := Visible(files, reader, detached);
      reading := reading - {op};
      if visible.None? { return NotFound; }
      var binary := IsBinaryFile(visible.value[..Min(reader.size, |visible.value|)]);
      if binary { return BinaryFile; }
      reading := reading[op := Sampled(reader.path, reader.viaBackend, reader.mtime)];
      return Underway;
    }

    method LoadBytes(op: OpId, detached: Option<Bytes>) returns (r: ReadResult)
      requires Enabled(View(), ReadBytes(op, detached))
      modifies this`reading
      ensures View() == Step(old(View()), ReadBytes(op, detached))
      ensures r == if op in reading then Underway else NotFound
    {
      var reader := reading[op];
      var visible := Visible(files, reader, detached);
      reading := reading - {op};
      if visible.None? { return NotFound; }
      reading := reading[op := Loaded(reader.path, reader.viaBackend, reader.mtime, visible.value)];
      return Underway;
    }

    /** What was loaded is refused, or recorded and given to the model. */
    method DeliverRead(op: OpId) returns (r: ReadResult)
      requires Enabled(View(), Deliver(op))
      modifies this`reading, this`delivered, tracker
      ensures View() == Step(old(View()), Deliver(op))
      ensures r == if old(reading)[op].viaBackend && 0 in old(reading)[op].content then BinaryFile
                   else Content(old(reading)[op].content)
    {
      var reader := reading[op];
      reading := reading - {op};
      if reader.viaBackend && 0 in reader.content { return BinaryFile; }
      tracker.Record(reader.path, reader.mtime);
      delivered := delivered[reader.path := reader.content];
      return Content(reader.content);
    }

    method StatForWrite(op: OpId, path: Path, content: Bytes, atomic: bool)
      requires op !in writing
      modifies this`writing
      ensures View() == Step(old(View()), WriteStat(op, path, content, atomic))
    {
      writing := writing[op := Inspected(path, content, atomic, MtimeOf(files, path))];
    }

    /** The decision, from the tracker and the time seen. */
    method CheckWrite(op: OpId) returns (r: WriteResult)
      requires Enabled(View(), Check(op))
      modifies this`writing
      ensures View() == Step(old(View()), Check(op))
      ensures r == match EvaluateReadBeforeWrite(tracker.seen, old(writing)[op].path, old(writing)[op].current)
                   case Allowed => Pending
                   case ReadRequired => ReadRequiredError
                   case Stale => StaleFile
    {
      var w := writing[op];
      writing := writing - {op};
      if w.current.Some? {
        var recorded := tracker.Expected(w.path);
        if recorded.None? { return ReadRequiredError; }
        if recorded.value != w.current.value { return StaleFile; }
      }
      writing := writing[op := Checked(w.path, w.content, w.atomic, w.current, Lookup(delivered, w.path))];
      return Pending;
    }

    /** The local probe of the file about to be overwritten. */
    method ProbeForWrite(op: OpId) returns (r: WriteResult)
      requires Enabled(View(), WriteProbe(op))
      modifies this`writing
      ensures View() == Step(old(View()), WriteProbe(op))
      ensures r == if op in writing then Pending else BinaryRefused
    {
      var w := writing[op];
      writing := writing - {op};
      if w.path in files {
        var binary := IsBinaryFile(files[w.path].content);
        if binary { return BinaryRefused; }
      }
      writing := writing[op := Cleared(w.path, w.content, w.atomic, w.current, w.known)];
      return Pending;
    }

    /** The write itself; a backend refuses it when the expected time no longer matches an existing file. */
    method CommitWrite(op: OpId, mtime: nat) returns (r: WriteResult)
      requires Enabled(View(), Commit(op, mtime))
      modifies this`files, this`clock, this`writing, this`log
      ensures View() == Step(old(View()), Commit(op, mtime))
      ensures r == if log == old(log) then StaleFile else Written(|old(writing)[op].content|)
    {
      var w := writing[op];
      writing := writing - {op};
      if w.atomic && w.current.Some? && w.path in files && files[w.path].mtime != w.current.value {
        return StaleFile;
      }
      log := log + [Replacement(w.path, w.atomic, w.current, w.known, Lookup(files, w.path))];
      files := files[w.path := Version(mtime, w.content)];
      clock := mtime;
      return Written(|w.content|);
    }

    /** The file system raises an error in the middle of a read, which ends it. */
    method AbandonRead(op: OpId, fault: Fault) returns (r: ReadResult)
      requires Enabled(View(), ReadRaises(op))
      modifies this`reading
      ensures View() == Step(old(View()), ReadRaises(op)) && r == ReadErrorToJson(fault)
    {
      reading := reading - {op};
      return ReadErrorToJson(fault);
    }

    /** Or in the middle of a write. */
    method AbandonWrite(op: OpId, fault: Fault) returns (r: WriteResult)
      requires Enabled(View(), WriteRaises(op))
      modifies this`writing
      ensures View() == Step(old(View()), WriteRaises(op)) && r == BackendErrorToJson(fault)
      ensures (r.OutsideRoot? <==> fault.SecurityFault?) && (r.ReadOnly? <==> fault.ReadOnlyFault?)
      ensures (r.StaleFile? <==> fault.StaleFault?) && (r.WriteFailed? <==> fault.FilesystemFault?)
    {
      writing := writing - {op};
      return BackendErrorToJson(fault);
    }

    /** Another writer, or a write that no tracker guards. */
    method WriteUnguarded(path: Path, content: Bytes, mtime: nat)
      requires mtime > clock
      modifies this`files, this`clock
      ensures View() == Step(old(View()), External(path, Some(content), mtime))
    {
      files := files[path := Version(mtime, content)];
      clock := mtime;
    }

    // Whole calls, when nobody else gets a turn between their stretches. A fault is the error the backend
    // raises at that call.

    /** The read records the time it saw exactly when it delivers the content. */
    method ReadViaBackend(op: OpId, path: Path, statFault: Option<Fault>, readFault: Option<Fault>) returns (r: ReadResult)
      requires op !in reading
      modifies this`reading, this`delivered, tracker
      ensures r == if statFault.Some? then ReadErrorToJson(statFault.value)
                   else if path !in files then NotFound
                   else if |files[path].content| > MAX_FILE_SIZE then TooLarge
                   else if readFault.Some? then ReadErrorToJson(readFault.value)
                   else if 0 in files[path].content then BinaryFile
                   else Content(files[path].content)
      ensures tracker.seen == if r.Content? then old(tracker.seen)[path := files[path].mtime] else old(tracker.seen)
      ensures reading == old(reading)
    {
      if statFault.Some? { return ReadErrorToJson(statFault.value); }
      r := StatForRead(op, path, true);
      if r != Underway { return; }
      if readFault.Some? {
        r := AbandonRead(op, readFault.value);
        return;
      }
      r := LoadBytes(op, None);
      r := DeliverRead(op);
    }

    /** The local read refuses only a file with a null byte near its start. */
    method ReadContent(op: OpId, path: Path) returns (r: ReadResult)
      requires op !in reading
      modifies this`reading, this`delivered, tracker
      ensures r.NotFound? <==> path !in files
      ensures r.Content? <==> path in files && |files[path].content| <= 5_242_880 && !IsBinary(files[path].content)
      ensures r.Content? ==> r.content == files[path].content
      ensures tracker.seen == if r.Content? then old(tracker.seen)[path := files[path].mtime] else old(tracker.seen)
      ensures reading == old(reading)
    {
      r := StatForRead(op, path, false);
      if r != Underway { return; }
      var content := files[path].content;
      assert content[..Min(|content|, |content|)] == content;
      r := ProbeForRead(op, None);
      if r != Underway { return; }
      r := LoadBytes(op, None);
      r := DeliverRead(op);
    }

    /** The guarded write follows the decision: refused it changes nothing, allowed it replaces the file,
        unless the backend raises an error, which is answered in its own words. */
    method WriteViaBackend(op: OpId, path: Path, content: Bytes, mtime: nat,
                           statFault: Option<Fault>, writeFault: Option<Fault>) returns (r: WriteResult)
      requires op !in writing && mtime > clock
      modifies this`files, this`clock, this`writing, this`log
      ensures
        if statFault.Some? then r == BackendErrorToJson(statFault.value) && files == old(files)
        else match EvaluateReadBeforeWrite(tracker.seen, path, MtimeOf(old(files), path))
        case Allowed =>
          if writeFault.Some? then r == BackendErrorToJson(writeFault.value) && files == old(files)
          else r == Written(|content|) && files == old(files)[path := Version(mtime, content)]
        case ReadRequired => r == ReadRequiredError && files == old(files)
        case Stale => r == StaleFile && files == old(files)
      ensures writing == old(writing)
    {
      hide Step, EvaluateReadBeforeWrite, IsBinary;
      if statFault.Some? { return BackendErrorToJson(statFault.value); }
      ghost var s := View();
      WriteDecided(s, op, path, content, true);
      StatForWrite(op, path, content, true);
      r := CheckWrite(op);
      if r != Pending { return; }
      if writeFault.Some? {
        WriteAbandoned(s, op, View().writing[op]);
        r := AbandonWrite(op, writeFault.value);
        return;
      }
      WriteCommitted(s, op, View().writing[op], mtime);
      r := CommitWrite(op, mtime);
    }

    /** The local write is refused outside the root, and over a binary file as well. */
    method WriteViaLocalFs(op: OpId, path: Path, content: Bytes, mtime: nat, confined: bool) returns (r: WriteResult)
      requires op !in writing && mtime > clock
      modifies this`files, this`clock, this`writing, this`log
      ensures var binary := path in old(files) && IsBinary(old(files)[path].content);
        if !confined then r == OutsideRoot && files == old(files)
        else match EvaluateReadBeforeWrite(tracker.seen, path, MtimeOf(old(files), path))
        case Allowed =>
          if binary then r == BinaryRefused && files == old(files)
          else r == Written(|content|) && files == old(files)[path := Version(mtime, content)]
        case ReadRequired => r == ReadRequiredError && files == old(files)
        case Stale => r == StaleFile && files == old(files)
      ensures writing == old(writing)
    {
      hide Step, EvaluateReadBeforeWrite, IsBinary;
      if !confined { return OutsideRoot; }
      ghost var s := View();
      WriteDecided(s, op, path, content, false);
      StatForWrite(op, path, content, false);
      r := CheckWrite(op);
      if r != Pending { return; }
      WriteProbed(s, op, View().writing[op]);
      r := ProbeForWrite(op);
      if r != Pending { return; }
      WriteCommitted(s, op, View().writing[op], mtime);
      r := CommitWrite(op, mtime);
    }
  }

  /** The probe for a null byte at the start of a file. */
  method IsBinaryFile(content: Bytes) returns (binary: bool)
    ensures binary <==> IsBinary(content)
    ensures binary <==> exists i :: 0 <= i < |content| && i < 8192 && content[i] == 0
  {
    var probeLen := Min(BINARY_PROBE_BYTES, |content|);
    for i := 0 to probeLen
      invariant forall k :: 0 <= k < i ==> content[k] != 0
    {
      if content[i] == 0 {
        assert content[..probeLen][i] == 0;
        return true;
      }
    }
    return false;
  }
}
