/** The bounded background job queue as a step protocol: every step is one synchronous stretch of
    the program, and any interleaving of the steps is a run. */
module JobQueues {
  import opened Sequences

  /** A job's identifier. The program draws a random UUID; only its freshness matters. */
  type JobId = nat

  datatype Status = Pending | Running | Completed | Failed | Cancelled

  datatype Outcome = Resolved(value: string) | Rejected(message: string)

  datatype Job = Job(status: Status, result: Option<string>, error: Option<string>)

  /** How far the promise chain set up by `enqueue` has got for one job. */
  datatype Stage =
    | Queued    // the slot promise is unresolved: its resolver sits in `waiting`
    | Ready     // a slot is taken; the start callback is queued as a microtask
    | Dropped   // the start callback found the job cancelled
    | Started   // the start callback marked the job running; its function is not called yet
    | InFn      // the function is called and has not settled
    | Settled   // the outcome was handled; the `finally` callback is still to come
    | Finished  // the `finally` callback ran

  datatype State = State(
    limit: Option<nat>,       // None: unbounded
    jobs: map<JobId, Job>,
    controllers: set<JobId>,  // jobs whose controller is still registered
    aborted: set<JobId>,      // jobs whose abort signal has fired
    running: int,
    waiting: seq<JobId>,
    ready: seq<JobId>,        // start callbacks queued as microtasks, oldest first
    stage: map<JobId, Stage>,
    order: seq<JobId>,        // history: jobs in enqueue order
    begun: seq<JobId>,        // history: jobs in the order their start callbacks ran
    released: seq<JobId>,     // history: jobs in the order they gave it back
    called: seq<JobId>)       // history: jobs whose function was called

  datatype Event =
    | Enqueue(id: JobId)
    | StartCallback
    | CallFn(id: JobId)
    | Settle(id: JobId, outcome: Outcome)
    | Finally(id: JobId)
    | Cancel(id: JobId)

  /** The jobs that took a slot, in the order they took it. */
  function Granted(s: State): seq<JobId> { s.begun + s.ready }

  predicate Terminal(s: Status) { s.Completed? || s.Failed? || s.Cancelled? }

  function Init(limit: Option<nat>): State {
    State(limit, map[], {}, {}, 0, [], [], map[], [], [], [], [])
  }

  predicate HasFreeSlot(s: State) { s.limit.None? || s.running < s.limit.value }

  /** The slot goes to `id`: its start callback becomes a microtask. */
  function Grant(s: State, id: JobId): State {
    s.(running := s.running + 1, ready := s.ready + [id], stage := s.stage[id := Ready])
  }

  /** A new pending job with its controller. */
  function Arrive(s: State, id: JobId): State {
    s.(jobs := s.jobs[id := Job(Pending, None, None)], controllers := s.controllers + {id},
       order := s.order + [id])
  }

  function Acquire(s: State, id: JobId): State {
    if HasFreeSlot(s) then Grant(s, id)
    else s.(waiting := s.waiting + [id], stage := s.stage[id := Queued])
  }

  function GiveBack(s: State, id: JobId): State {
    s.(controllers := s.controllers - {id}, running := s.running - 1, released := s.released + [id])
  }

  /** Idempotent: a job without a controller has already given its slot back. */
  function Release(s: State, id: JobId): State {
    if id !in s.controllers then s
    else
      var s1 := GiveBack(s, id);
      if s1.waiting == [] then s1
      else Grant(s1.(waiting := s1.waiting[1..]), s1.waiting[0])
  }

  function Handle(job: Job, outcome: Outcome): Job {
    if job.status.Cancelled? then job
    else match outcome
      case Resolved(v) => job.(result := Some(v), status := Completed)
      case Rejected(m) => job.(error := Some(m), status := Failed)
  }

  /** The status is flipped and the job's signal fires. */
  function MarkCancelled(s: State, id: JobId): State
    requires id in s.jobs
  {
    s.(jobs := s.jobs[id := s.jobs[id].(status := Cancelled)],
       aborted := if id in s.controllers then s.aborted + {id} else s.aborted)
  }

  predicate StageIs(s: State, id: JobId, stage: Stage) { id in s.stage && s.stage[id] == stage }

  predicate Enabled(s: State, e: Event) {
    match e
    case Enqueue(id) => id !in s.jobs
    case StartCallback => s.ready != [] && s.ready[0] in s.jobs
    case CallFn(id) => StageIs(s, id, Started)
    case Settle(id, _) => StageIs(s, id, InFn) && id in s.jobs
    case Finally(id) => StageIs(s, id, Settled)
    case Cancel(_) => true
  }

  /** One step. An event that cannot happen in `s` leaves it unchanged. */
  function Step(s: State, e: Event): State {
    if !Enabled(s, e) then s
    else match e
      case Enqueue(id) => Acquire(Arrive(s, id), id)
      case StartCallback =>
        var id := s.ready[0];
        var s1 := s.(ready := s.ready[1..], begun := s.begun + [id]);
        if s.jobs[id].status.Cancelled? then Release(s1.(stage := s1.stage[id := Dropped]), id)
        else s1.(jobs := s1.jobs[id := s1.jobs[id].(status := Running)],
                 stage := s1.stage[id := Started])
      case CallFn(id) => s.(stage := s.stage[id := InFn], called := s.called + [id])
      case Settle(id, outcome) =>
        s.(jobs := s.jobs[id := Handle(s.jobs[id], outcome)], stage := s.stage[id := Settled])
      case Finally(id) => Release(s.(stage := s.stage[id := Finished]), id)
      case Cancel(id) =>
        if id !in s.jobs || Terminal(s.jobs[id].status) then s
        else if s.jobs[id].status.Running? then Release(MarkCancelled(s, id), id)
        else MarkCancelled(s, id)
  }

  function Run(s: State, events: seq<Event>): State
    decreases |events|
  {
    if events == [] then s else Run(Step(s, events[0]), events[1..])
  }

  // ---- The invariant --------------------------------------------------------------------------

  /** Enqueue order is: jobs whose start callback ran, then jobs with a slot, then waiting jobs. */
  ghost predicate Line(s: State) {
    && NoDup(s.order)
    && s.begun + s.ready + s.waiting == s.order
    && (forall id :: id in s.order <==> id in s.jobs)
    && (forall id :: id in s.jobs <==> id in s.stage)
  }

  /** Slots are given back at most once, and only by jobs that took one. */
  ghost predicate Ledger(s: State) {
    && NoDup(s.released) && NoDup(s.called)
    && (forall id :: id in s.released || id in s.called || id in s.aborted ==> id in s.jobs)
    && (forall id :: id in s.controllers <==> id in s.jobs && id !in s.released)
  }

  /** The slot counter is exact and within the limit, and no slot is idle while a job waits. */
  ghost predicate SlotsExact(s: State) {
    && s.running == |Granted(s)| - |s.released|
    && (s.limit.Some? ==> 1 <= s.limit.value && s.running <= s.limit.value)
    && (s.waiting != [] ==> s.limit.Some? && s.running == s.limit.value)
  }

  /** What one job's stage says about its status, its slot and its signal. */
  ghost predicate JobConsistent(s: State, id: JobId)
    requires id in s.jobs && id in s.stage
  {
    var status, stage := s.jobs[id].status, s.stage[id];
    && (stage.Queued? <==> id in s.waiting)
    && (stage.Ready? <==> id in s.ready)
    && (!stage.Queued? && !stage.Ready? <==> id in s.begun)
    && (stage.Queued? || stage.Ready? ==> status.Pending? || status.Cancelled?)
    && (stage.Started? || stage.InFn? ==> status.Running? || status.Cancelled?)
    && (stage.Settled? || stage.Finished? ==> Terminal(status))
    && (stage.Dropped? ==> status.Cancelled?)
    && (!status.Completed? && !status.Failed? ==> s.jobs[id].result.None? && s.jobs[id].error.None?)
    && (id in s.released <==>
          stage.Dropped? || stage.Finished?
          || (status.Cancelled? && (stage.Started? || stage.InFn? || stage.Settled?)))
    && (id in s.called <==> stage.InFn? || stage.Settled? || stage.Finished?)
    && (id in s.aborted <==> status.Cancelled?)
  }

  ghost predicate Inv(s: State) {
    && Line(s)
    && Ledger(s)
    && SlotsExact(s)
    && forall id :: id in s.jobs ==> JobConsistent(s, id)
  }

  lemma InitInv(limit: Option<nat>)
    requires limit.Some? ==> 1 <= limit.value
    ensures Inv(Init(limit))
  {
  }

  /** Consistency of a job depends only on what the state records about that job. */
  lemma Unaffected(s: State, t: State, id: JobId)
    requires id in s.jobs && id in s.stage && JobConsistent(s, id)
    requires id in t.jobs && id in t.stage
    requires t.jobs[id] == s.jobs[id] && t.stage[id] == s.stage[id]
    requires id in s.waiting <==> id in t.waiting
    requires id in s.ready <==> id in t.ready
    requires id in s.begun <==> id in t.begun
    requires id in s.released <==> id in t.released
    requires id in s.called <==> id in t.called
    requires id in s.aborted <==> id in t.aborted
    ensures JobConsistent(t, id)
  {
  }

  lemma Places(s: State)
    requires Line(s)
    ensures forall id :: id in s.jobs <==> id in s.begun || id in s.ready || id in s.waiting
    ensures forall id :: id in s.begun || id in s.ready ==> id !in s.waiting
    ensures forall id :: id in s.begun ==> id !in s.ready
    ensures NoDup(s.ready) && NoDup(s.waiting)
  {
    DisjointParts(s.begun + s.ready, s.waiting);
    DisjointParts(s.begun, s.ready);
  }

  /** The head of a duplicate-free sequence does not come again. */
  lemma HeadOnce<T>(s: seq<T>)
    requires NoDup(s) && s != []
    ensures s[0] !in s[1..] && s == [s[0]] + s[1..]
  {
    assert s == [s[0]] + s[1..];
    DisjointParts([s[0]], s[1..]);
    assert s[0] in [s[0]];
  }

  /** The head of the waiting list takes a slot. */
  lemma GrantNextLine(s: State)
    requires Line(s) && s.waiting != []
    ensures s.waiting[0] in s.jobs
    ensures Line(Grant(s.(waiting := s.waiting[1..]), s.waiting[0]))
  {
    var next := s.waiting[0];
    var t := Grant(s.(waiting := s.waiting[1..]), next);
    assert next in s.waiting;
    Places(s);
    AppendAssociative(s.begun, s.ready, [next]);
    ShiftBoundary(s.begun + s.ready, s.waiting);
  }

  /** Handing a free slot to the head of the waiting list. */
  lemma HandOver(s: State)
    requires Line(s) && Ledger(s) && s.waiting != []
    requires s.running == |Granted(s)| - |s.released|
    requires s.limit.Some? && 1 <= s.limit.value && s.running == s.limit.value - 1
    requires forall id :: id in s.jobs ==> JobConsistent(s, id)
    ensures Inv(Grant(s.(waiting := s.waiting[1..]), s.waiting[0]))
  {
    GrantNextLine(s);
    var next := s.waiting[0];
    var t := Grant(s.(waiting := s.waiting[1..]), next);
    forall id | id in t.jobs ensures JobConsistent(t, id) {
      GrantNextJob(s, id);
    }
  }

  lemma GrantNextJob(s: State, id: JobId)
    requires Line(s) && s.waiting != []
    requires id in s.jobs && s.waiting[0] in s.jobs
    requires JobConsistent(s, id) && JobConsistent(s, s.waiting[0])
    ensures JobConsistent(Grant(s.(waiting := s.waiting[1..]), s.waiting[0]), id)
  {
    Places(s);
    HeadOnce(s.waiting);
    var next := s.waiting[0];
    assert next in s.waiting;
    if id != next { Unaffected(s, Grant(s.(waiting := s.waiting[1..]), next), id); }
  }

  lemma GiveBackLedger(s: State, id: JobId)
    requires Line(s) && Ledger(s) && id in s.jobs && id !in s.released
    ensures Line(GiveBack(s, id)) && Ledger(GiveBack(s, id))
  {
    NoDupAppend(s.released, id);
  }

  lemma ReleaseRestores(s: State, id: JobId)
    requires Line(s) && Ledger(s) && SlotsExact(s)
    requires id !in s.released
    requires forall k :: k in s.jobs && k != id ==> JobConsistent(s, k)
    requires id in s.jobs && JobConsistent(s.(released := s.released + [id]), id)
    ensures Inv(Release(s, id))
  {
    var s1 := GiveBack(s, id);
    GiveBackLedger(s, id);
    forall k | k in s1.jobs ensures JobConsistent(s1, k) {
      if k == id { Unaffected(s.(released := s.released + [id]), s1, k); }
      else { Unaffected(s, s1, k); }
    }
    if s1.waiting != [] { HandOver(s1); }
  }

  /** Giving back a held slot hands it to the head of the waiting line, if there is one, and restores
      the invariant. */
  lemma ReleaseInv(s: State, id: JobId)
    requires Line(s) && Ledger(s) && SlotsExact(s)
    requires id !in s.released
    requires forall k :: k in s.jobs && k != id ==> JobConsistent(s, k)
    requires id in s.jobs && JobConsistent(s.(released := s.released + [id]), id)
    ensures Inv(Release(s, id))
    ensures Release(s, id).released == s.released + [id]
    ensures Granted(Release(s, id)) == Granted(s) + s.waiting[..Min(1, |s.waiting|)]
    ensures Release(s, id).waiting == s.waiting[Min(1, |s.waiting|)..]
  {
    assert id in s.controllers;
    ReleaseRestores(s, id);
    ReleasePassesSlotOn(s, id);
  }

  lemma EnqueueLine(s: State, id: JobId)
    requires Line(s) && id !in s.jobs && (HasFreeSlot(s) ==> s.waiting == [])
    ensures Line(Acquire(Arrive(s, id), id))
  {
    NoDupAppend(s.order, id);
    AppendToParts(s.begun, s.ready, s.waiting, id);
  }

  lemma EnqueueJob(s: State, id: JobId, k: JobId)
    requires Line(s) && Ledger(s) && id !in s.jobs && (k in s.jobs ==> JobConsistent(s, k))
    requires k in s.jobs || k == id
    ensures JobConsistent(Acquire(Arrive(s, id), id), k)
  {
    Places(s);
    if k != id {
      Unaffected(s, Acquire(Arrive(s, id), id), k);
    }
  }

  lemma EnqueueLedger(s: State, id: JobId)
    requires Ledger(s) && SlotsExact(s) && id !in s.jobs
    ensures Ledger(Acquire(Arrive(s, id), id)) && SlotsExact(Acquire(Arrive(s, id), id))
  {
  }

  lemma EnqueueInv(s: State, id: JobId)
    requires Inv(s) && id !in s.jobs
    ensures Inv(Acquire(Arrive(s, id), id))
  {
    EnqueueLine(s, id);
    EnqueueLedger(s, id);
    var t := Acquire(Arrive(s, id), id);
    forall k | k in t.jobs ensures JobConsistent(t, k) { EnqueueJob(s, id, k); }
  }

  /** The state in which the oldest start callback has run but kept its slot. */
  function Begin(s: State): State
    requires s.ready != [] && s.ready[0] in s.jobs
  {
    var id := s.ready[0];
    var cancelled := s.jobs[id].status.Cancelled?;
    s.(ready := s.ready[1..], begun := s.begun + [id],
       jobs := if cancelled then s.jobs else s.jobs[id := s.jobs[id].(status := Running)],
       stage := s.stage[id := if cancelled then Dropped else Started])
  }

  lemma BeginLine(s: State)
    requires Line(s) && s.ready != [] && s.ready[0] in s.jobs
    ensures Line(Begin(s)) && |Granted(Begin(s))| == |Granted(s)|
  {
    ShiftBoundary(s.begun, s.ready);
  }

  lemma BeginOther(s: State, k: JobId)
    requires Line(s) && s.ready != [] && s.ready[0] in s.jobs
    requires k in s.jobs && JobConsistent(s, k) && k != s.ready[0]
    ensures JobConsistent(Begin(s), k)
  {
    assert s.ready == [s.ready[0]] + s.ready[1..];
    Unaffected(s, Begin(s), k);
  }

  lemma BeginSelf(s: State)
    requires Line(s) && s.ready != [] && s.ready[0] in s.jobs && JobConsistent(s, s.ready[0])
    ensures var t, id := Begin(s), s.ready[0];
      && id !in s.released
      && JobConsistent(if t.jobs[id].status.Cancelled? then t.(released := t.released + [id]) else t, id)
  {
    Places(s);
    HeadOnce(s.ready);
    assert s.ready[0] in s.ready;
  }

  lemma StartCallbackInv(s: State)
    requires Inv(s) && Enabled(s, StartCallback)
    ensures Inv(Step(s, StartCallback))
  {
    var id := s.ready[0];
    var t := Begin(s);
    BeginLine(s);
    BeginSelf(s);
    forall k | k in t.jobs && k != id ensures JobConsistent(t, k) { BeginOther(s, k); }
    if s.jobs[id].status.Cancelled? { ReleaseInv(t, id); }
  }

  lemma CallFnInv(s: State, id: JobId)
    requires Inv(s) && Enabled(s, CallFn(id))
    ensures Inv(Step(s, CallFn(id)))
  {
    var t := Step(s, CallFn(id));
    assert JobConsistent(s, id);
    NoDupAppend(s.called, id);
    forall k | k in t.jobs ensures JobConsistent(t, k) {
      if k != id { Unaffected(s, t, k); }
    }
  }

  lemma SettleInv(s: State, id: JobId, outcome: Outcome)
    requires Inv(s) && Enabled(s, Settle(id, outcome))
    ensures Inv(Step(s, Settle(id, outcome)))
  {
    var t := Step(s, Settle(id, outcome));
    forall k | k in t.jobs ensures JobConsistent(t, k) {
      if k == id { assert JobConsistent(s, k); } else { Unaffected(s, t, k); }
    }
  }

  /** A `release` for a job that no longer has a controller changes nothing. */
  lemma FinallyInv(s: State, id: JobId)
    requires Inv(s) && Enabled(s, Finally(id))
    ensures Inv(Step(s, Finally(id)))
  {
    assert JobConsistent(s, id);
    var s1 := s.(stage := s.stage[id := Finished]);
    forall k | k in s1.jobs && k != id ensures JobConsistent(s1, k) {
      Unaffected(s, s1, k);
    }
    if id !in s.released { ReleaseInv(s1, id); }
  }

  lemma CancelInv(s: State, id: JobId)
    requires Inv(s)
    ensures Inv(Step(s, Cancel(id)))
  {
    if id in s.jobs && !Terminal(s.jobs[id].status) {
      assert JobConsistent(s, id);
      var s1 := MarkCancelled(s, id);
      forall k | k in s1.jobs && k != id ensures JobConsistent(s1, k) {
        Unaffected(s, s1, k);
      }
      if s.jobs[id].status.Running? { ReleaseInv(s1, id); }
    }
  }

  lemma StepInv(s: State, e: Event)
    requires Inv(s)
    ensures Inv(Step(s, e))
  {
    if Enabled(s, e) {
      match e
      case Enqueue(id) => EnqueueInv(s, id);
      case StartCallback => StartCallbackInv(s);
      case CallFn(id) => CallFnInv(s, id);
      case Settle(id, outcome) => SettleInv(s, id, outcome);
      case Finally(id) => FinallyInv(s, id);
      case Cancel(id) => CancelInv(s, id);
    }
  }

  lemma {:induction false} RunInv(s: State, events: seq<Event>)
    requires Inv(s)
    ensures Inv(Run(s, events))
    decreases |events|
  {
    if events != [] {
      StepInv(s, events[0]);
      RunInv(Step(s, events[0]), events[1..]);
    }
  }

  // ---- Whole runs -----------------------------------------------------------------------------

  /** Values below 1 are clamped to 1; no value means unbounded. */
  function Limit(maxConcurrency: Option<int>): Option<nat> {
    match maxConcurrency
    case None => None
    case Some(m) => Some(Max(1, m))
  }

  /** Every reachable state: the controllers are exactly the jobs that hold or await a slot, the
      counter never exceeds the bound, and a job waits only when every slot is taken. */
  lemma SlotAccounting(maxConcurrency: Option<int>, events: seq<Event>)
    ensures var s := Run(Init(Limit(maxConcurrency)), events);
      && s.running + |s.waiting| == |s.controllers|
      && (maxConcurrency.Some? ==> s.running <= Max(1, maxConcurrency.value))
      && (s.waiting != [] ==> maxConcurrency.Some? && s.running == Max(1, maxConcurrency.value))
      && s.running == |Holders(s)|
      && NoDup(s.released)
  {
    var limit := Limit(maxConcurrency);
    InitInv(limit);
    RunInv(Init(limit), events);
    RunExtends(Init(limit), events);
    SlotsCounted(Run(Init(limit), events));
  }

  lemma SlotsCounted(s: State)
    requires Inv(s)
    ensures s.running + |s.waiting| == |s.controllers| && s.running == |Holders(s)|
  {
    ControllersAreUnreleased(s);
    HolderCount(s);
  }

  lemma ControllersAreUnreleased(s: State)
    requires Line(s) && Ledger(s)
    ensures |s.controllers| == |s.order| - |s.released|
  {
    NoDupCardinality(s.order);
    NoDupCardinality(s.released);
    SubsetCardinality(ToSet(s.released), ToSet(s.order));
    assert s.controllers == ToSet(s.order) - ToSet(s.released);
  }

  /** The jobs that took a slot and have not given it back. */
  ghost function Holders(s: State): set<JobId> { ToSet(Granted(s)) - ToSet(s.released) }

  lemma HolderCount(s: State)
    requires Inv(s)
    ensures s.running == |Holders(s)|
  {
    DisjointParts(Granted(s), s.waiting);
    Places(s);
    NoDupCardinality(Granted(s));
    NoDupCardinality(s.released);
    forall id | id in s.released ensures id in Granted(s) {
      assert id in s.jobs && JobConsistent(s, id);
    }
    SubsetCardinality(ToSet(s.released), ToSet(Granted(s)));
  }

  /** What one step does to the histories and to a finished job. */
  ghost predicate Extends(s: State, t: State) {
    && s.order <= t.order && s.begun <= t.begun && Granted(s) <= Granted(t)
    && s.released <= t.released && s.called <= t.called
    && s.limit == t.limit
    && (forall id :: id in s.jobs ==> id in t.jobs)
    && (forall id :: id in s.jobs && Terminal(s.jobs[id].status) ==> t.jobs[id] == s.jobs[id])
    && (forall id :: id in s.aborted ==> id in t.aborted)
  }

  lemma GrantExtends(s: State, id: JobId)
    ensures Extends(s, Grant(s, id))
  {
    assert Granted(Grant(s, id)) == Granted(s) + [id];
  }

  lemma ReleaseExtends(s: State, id: JobId)
    ensures Extends(s, Release(s, id))
  {
    if id in s.controllers {
      var s1 := GiveBack(s, id);
      if s1.waiting != [] { GrantExtends(s1.(waiting := s1.waiting[1..]), s1.waiting[0]); }
    }
  }

  lemma StartExtends(s: State)
    requires s.ready != [] && s.ready[0] in s.jobs
    requires Terminal(s.jobs[s.ready[0]].status) ==> s.jobs[s.ready[0]].status.Cancelled?
    ensures Extends(s, Step(s, StartCallback))
  {
    assert s.ready == [s.ready[0]] + s.ready[1..];
    assert Granted(Begin(s)) == Granted(s);
    assert Extends(s, Begin(s));
    if s.jobs[s.ready[0]].status.Cancelled? { ReleaseExtends(Begin(s), s.ready[0]); }
  }

  lemma CancelExtends(s: State, id: JobId)
    ensures Extends(s, Step(s, Cancel(id)))
  {
    if id in s.jobs && !Terminal(s.jobs[id].status) {
      var s1 := MarkCancelled(s, id);
      assert Extends(s, s1);
      ReleaseExtends(s1, id);
    }
  }

  lemma EnqueueExtends(s: State, id: JobId)
    requires id !in s.jobs
    ensures Extends(s, Step(s, Enqueue(id)))
  {
    assert Extends(s, Arrive(s, id));
    if HasFreeSlot(s) { GrantExtends(Arrive(s, id), id); }
  }

  lemma StepExtends(s: State, e: Event)
    requires Inv(s)
    ensures Extends(s, Step(s, e))
  {
    if Enabled(s, e) {
      match e
      case Enqueue(id) => EnqueueExtends(s, id);
      case StartCallback =>
        assert s.ready[0] in s.ready && JobConsistent(s, s.ready[0]);
        StartExtends(s);
      case CallFn(id) =>
      case Settle(id, outcome) =>
        assert JobConsistent(s, id);
      case Finally(id) => ReleaseExtends(s.(stage := s.stage[id := Finished]), id);
      case Cancel(id) => CancelExtends(s, id);
    }
  }

  /** Over any run, histories only grow and a finished job's record never changes again: a
      cancelled job stays cancelled and its late result is discarded. */
  lemma {:induction false} RunExtends(s: State, events: seq<Event>)
    requires Inv(s)
    ensures Extends(s, Run(s, events))
    decreases |events|
  {
    if events != [] {
      var t := Step(s, events[0]);
      StepInv(s, events[0]);
      StepExtends(s, events[0]);
      RunExtends(t, events[1..]);
      ExtendsTransitive(s, t, Run(t, events[1..]));
    }
  }

  lemma ExtendsTransitive(s: State, t: State, u: State)
    requires Extends(s, t) && Extends(t, u)
    ensures Extends(s, u)
  {
  }

  /** Slots are granted in enqueue order: at every moment the jobs that got a slot are the first
      jobs enqueued, and their start callbacks run in that order too. */
  lemma GrantsInEnqueueOrder(maxConcurrency: Option<int>, events: seq<Event>, more: seq<Event>)
    ensures var s := Run(Init(Limit(maxConcurrency)), events);
      var t := Run(s, more);
      && s.begun <= Granted(s) <= s.order
      && Granted(s) <= Granted(t) <= t.order
      && s.order <= t.order
  {
    var limit := Limit(maxConcurrency);
    InitInv(limit);
    RunInv(Init(limit), events);
    var s := Run(Init(limit), events);
    RunInv(s, more);
    RunExtends(s, more);
  }

  ghost predicate MayBeCalled(s: State, id: JobId) {
    exists events :: id in Run(s, events).called
  }

  lemma CalledAfter(s: State, id: JobId, events: seq<Event>)
    requires id in Run(s, events).called
    ensures MayBeCalled(s, id)
  {
  }

  /** A job cancelled before its start callback ran never has its function called; once the start
      callback has run, a cancelled job's function can still be called, with its signal aborted.
      So a cancelled job's function runs in some continuation exactly when it already ran or the
      start callback had run and did not find the job cancelled. */
  lemma CancelledCallsExactly(s: State, id: JobId)
    requires Inv(s) && id in s.jobs && s.jobs[id].status.Cancelled?
    ensures MayBeCalled(s, id) <==> id in s.called || StageIs(s, id, Started)
    ensures id in s.aborted
  {
    assert JobConsistent(s, id);
    if StageIs(s, id, Started) {
      var events := [CallFn(id)];
      var t := Step(s, events[0]);
      assert events[1..] == [] && Run(t, []) == t;
      CalledAfter(s, id, events);
    } else if id in s.called {
      CalledAfter(s, id, []);
    } else {
      forall events ensures id !in Run(s, events).called { NeverCalled(s, id, events); }
    }
  }

  predicate Unstarted(stage: Stage) { stage.Queued? || stage.Ready? || stage.Dropped? }

  /** Giving back a slot moves only the head of the waiting list, and only to the ready stage. */
  lemma ReleaseStages(s: State, id: JobId, k: JobId)
    requires k in s.stage && Unstarted(s.stage[k])
    ensures k in Release(s, id).stage && Unstarted(Release(s, id).stage[k])
  {
  }

  lemma NeverCalledStep(s: State, id: JobId, e: Event)
    requires id in s.jobs && s.jobs[id].status.Cancelled?
    requires id in s.stage && Unstarted(s.stage[id])
    ensures id in Step(s, e).stage && Unstarted(Step(s, e).stage[id])
  {
    if Enabled(s, e) {
      match e
      case StartCallback =>
        if s.jobs[s.ready[0]].status.Cancelled? { ReleaseStages(Begin(s), s.ready[0], id); }
      case Finally(k) => ReleaseStages(s.(stage := s.stage[k := Finished]), k, id);
      case Cancel(k) =>
        if k in s.jobs && s.jobs[k].status.Running? {
          var s1 := MarkCancelled(s, k);
          ReleaseStages(s1, k, id);
        }
      case _ =>
    }
  }

  lemma {:induction false} NeverCalled(s: State, id: JobId, events: seq<Event>)
    requires Inv(s) && id in s.jobs && s.jobs[id].status.Cancelled?
    requires Unstarted(s.stage[id])
    ensures id !in Run(s, events).called
    decreases |events|
  {
    assert JobConsistent(s, id);
    if events != [] {
      StepInv(s, events[0]);
      StepExtends(s, events[0]);
      NeverCalledStep(s, id, events[0]);
      NeverCalled(Step(s, events[0]), id, events[1..]);
    }
  }

  // ---- What becomes of a job ----------------------------------------------------------------------

  /** The outcome that a function settled with while its job was running: the one that counts. */
  function OutcomeThatCounts(s: State, events: seq<Event>, id: JobId): Option<Outcome>
    decreases |events|
  {
    if events == [] then None
    else
      var e := events[0];
      if e.Settle? && e.id == id && Enabled(s, e) && s.jobs[id].status.Running? then Some(e.outcome)
      else OutcomeThatCounts(Step(s, e), events[1..], id)
  }

  /** A job that is neither completed nor failed has no record of an outcome. */
  ghost predicate Unrecorded(s: State, id: JobId) {
    id in s.jobs ==>
      !s.jobs[id].status.Completed? && !s.jobs[id].status.Failed? && s.jobs[id].result.None? && s.jobs[id].error.None?
  }

  lemma ReleaseUnrecorded(s: State, id: JobId, k: JobId)
    ensures Unrecorded(Release(s, id), k) <==> Unrecorded(s, k)
  {
    ReleaseStarts(s, id, k);
  }

  /** A function that settles in vain was cancelled. */
  lemma OnlyCancelledInVain(s: State, e: Event)
    requires Inv(s) && e.Settle? && Enabled(s, e) && !s.jobs[e.id].status.Running?
    ensures s.jobs[e.id].status.Cancelled?
  {
    assert JobConsistent(s, e.id);
  }

  lemma StaysUnrecorded(s: State, e: Event, id: JobId)
    requires Inv(s) && Unrecorded(s, id)
    requires !(e.Settle? && e.id == id && Enabled(s, e) && s.jobs[id].status.Running?)
    ensures Unrecorded(Step(s, e), id)
  {
    hide Inv;
    if Enabled(s, e) {
      match e
      case StartCallback =>
        if s.jobs[s.ready[0]].status.Cancelled? { ReleaseUnrecorded(Begin(s), s.ready[0], id); }
      case Settle(k, _) => if k == id { OnlyCancelledInVain(s, e); }
      case Finally(k) => ReleaseUnrecorded(s.(stage := s.stage[k := Finished]), k, id);
      case Cancel(k) =>
        CancelledState(s, k);
        if k in s.jobs { ReleaseUnrecorded(MarkCancelled(s, k), k, id); }
      case _ =>
    }
  }

  lemma SettleRecords(s: State, id: JobId, outcome: Outcome)
    requires Enabled(s, Settle(id, outcome)) && s.jobs[id].status.Running? && Unrecorded(s, id)
    ensures var t := Step(s, Settle(id, outcome));
      id in t.jobs && t.jobs[id] == match outcome
        case Resolved(v) => Job(Completed, Some(v), None)
        case Rejected(m) => Job(Failed, None, Some(m))
  {
  }

  lemma {:induction false} RecordedFrom(s: State, events: seq<Event>, id: JobId)
    requires Inv(s) && Unrecorded(s, id)
    ensures var t := Run(s, events);
      match OutcomeThatCounts(s, events, id)
      case Some(Resolved(v)) => id in t.jobs && t.jobs[id] == Job(Completed, Some(v), None)
      case Some(Rejected(m)) => id in t.jobs && t.jobs[id] == Job(Failed, None, Some(m))
      case None => Unrecorded(t, id)
    decreases |events|
  {
    hide Inv, Unrecorded;
    if events != [] {
      var e, t := events[0], Step(s, events[0]);
      StepInv(s, e);
      if e.Settle? && e.id == id && Enabled(s, e) && s.jobs[id].status.Running? {
        SettleRecords(s, id, e.outcome);
        RunExtends(t, events[1..]);
      } else {
        StaysUnrecorded(s, e, id);
        RecordedFrom(t, events[1..], id);
      }
    }
  }

  /** Over any run a job is completed, with that result, exactly when its function resolved while the job was
      running, and failed, with that message, exactly when it rejected then; a pending, running or cancelled
      job has neither result nor error. */
  lemma OutcomeRecorded(maxConcurrency: Option<int>, events: seq<Event>, id: JobId)
    requires id in Run(Init(Limit(maxConcurrency)), events).jobs
    ensures var s := Init(Limit(maxConcurrency));
      var job, counts := Run(s, events).jobs[id], OutcomeThatCounts(s, events, id);
      && (job.status.Completed? <==> counts.Some? && counts.value.Resolved?)
      && (job.status.Failed? <==> counts.Some? && counts.value.Rejected?)
      && (job.status.Completed? ==> job == Job(Completed, Some(counts.value.value), None))
      && (job.status.Failed? ==> job == Job(Failed, None, Some(counts.value.message)))
      && (!job.status.Completed? && !job.status.Failed? ==> job.result.None? && job.error.None?)
  {
    InitInv(Limit(maxConcurrency));
    RecordedFrom(Init(Limit(maxConcurrency)), events, id);
  }

  // ---- How many functions are in flight ---------------------------------------------------------

  /** Jobs whose function was called and has not settled. */
  ghost function InFlight(s: State): set<JobId> { set id | id in s.stage && s.stage[id].InFn? }

  ghost function CancelledInFlight(s: State): set<JobId> {
    set id | id in s.jobs && s.jobs[id].status.Cancelled? && id in InFlight(s)
  }

  /** The bound on functions in flight counts only the jobs that are not cancelled: a cancelled
      function that ignores its signal runs on beside the bound. */
  lemma InFlightBound(s: State)
    requires Inv(s)
    ensures InFlight(s) - CancelledInFlight(s) <= Holders(s)
    ensures CancelledInFlight(s) !! Holders(s)
    ensures s.limit.Some? ==> |InFlight(s)| <= s.limit.value + |CancelledInFlight(s)|
  {
    forall id | id in InFlight(s)
      ensures id in Holders(s) <==> id !in CancelledInFlight(s)
    {
      assert JobConsistent(s, id);
      assert id in Granted(s);
    }
    HolderCount(s);
    SubsetCardinality(CancelledInFlight(s), InFlight(s));
    SubsetCardinality(InFlight(s) - CancelledInFlight(s), Holders(s));
  }

  lemma ReleasePassesSlotOn(s: State, id: JobId)
    requires id in s.controllers
    ensures Release(s, id).released == s.released + [id]
    ensures Granted(Release(s, id)) == Granted(s) + s.waiting[..Min(1, |s.waiting|)]
    ensures Release(s, id).waiting == s.waiting[Min(1, |s.waiting|)..]
    ensures forall k :: k in s.stage && (s.waiting == [] || k != s.waiting[0]) ==>
              k in Release(s, id).stage && Release(s, id).stage[k] == s.stage[k]
  {
  }

  lemma CancelledState(s: State, id: JobId)
    ensures id !in s.jobs || Terminal(s.jobs[id].status) ==> Step(s, Cancel(id)) == s
    ensures id in s.jobs && s.jobs[id].status.Running? ==> Step(s, Cancel(id)) == Release(MarkCancelled(s, id), id)
    ensures id in s.jobs && s.jobs[id].status.Pending? ==> Step(s, Cancel(id)) == MarkCancelled(s, id)
  {
  }

  lemma InFlightHoldsSlot(s: State, id: JobId)
    requires Inv(s) && id in InFlight(s) && s.jobs[id].status.Running?
    ensures id in s.jobs && id in s.controllers && id in Granted(s) && id !in s.released
    ensures s.waiting != [] ==> s.waiting[0] in s.stage && s.waiting[0] != id
  {
    assert JobConsistent(s, id);
    QueuedHead(s);
  }

  /** Cancelling a job whose function is in flight frees the slot at once and leaves the function
      in flight; the head of the waiting list takes the freed slot. */
  lemma CancelFreesSlotNotFunction(s: State, id: JobId)
    requires Inv(s) && id in InFlight(s) && s.jobs[id].status.Running?
    ensures id in Holders(s)
    ensures id !in Holders(Step(s, Cancel(id)))
    ensures id in InFlight(Step(s, Cancel(id)))
    ensures s.waiting != [] ==> Granted(Step(s, Cancel(id))) == Granted(s) + [s.waiting[0]]
  {
    hide Inv, Step, Release;
    InFlightHoldsSlot(s, id);
    CancelledState(s, id);
    ReleasePassesSlotOn(MarkCancelled(s, id), id);
  }

  // ---- Progress ---------------------------------------------------------------------------------

  /** A step of the queue's own machinery that needs no cancelled function to settle. */
  predicate Progress(s: State, e: Event) {
    && Enabled(s, e)
    && !e.Enqueue? && !e.Cancel?
    && (e.Settle? ==> !s.jobs[e.id].status.Cancelled?)
  }

  /** A queue that can make no progress is drained: no slot is held, nobody waits and every job is
      finished, even if cancelled functions never settle. */
  lemma StuckMeansDrained(s: State)
    requires Inv(s)
    requires forall e :: !Progress(s, e)
    ensures s.running == 0 && s.waiting == []
    ensures forall id :: id in s.jobs ==> Terminal(s.jobs[id].status)
  {
    Places(s);
    assert !Progress(s, StartCallback);
    QueuedHead(s);
    forall id | id in s.begun ensures id in s.released {
      assert !Progress(s, CallFn(id)) && !Progress(s, Settle(id, Resolved(""))) && !Progress(s, Finally(id));
      assert JobConsistent(s, id);
    }
    assert Holders(s) == {};
    HolderCount(s);
    forall id | id in s.jobs ensures Terminal(s.jobs[id].status) {
      assert id in s.begun && JobConsistent(s, id);
    }
  }

  function Left(stage: Stage): nat {
    match stage
    case Queued => 5
    case Ready => 4
    case Started => 3
    case InFn => 2
    case Settled => 1
    case Dropped => 0
    case Finished => 0
  }

  /** Callbacks still to run, summed over the given jobs. */
  ghost function Work(stage: map<JobId, Stage>, ids: seq<JobId>): nat {
    if ids == [] then 0
    else Work(stage, ids[1..]) + if ids[0] in stage then Left(stage[ids[0]]) else 0
  }

  /** No stage grows, and one of them shrinks. */
  ghost predicate Advances(before: map<JobId, Stage>, after: map<JobId, Stage>, id: JobId) {
    && before.Keys == after.Keys && id in before
    && Left(after[id]) < Left(before[id])
    && forall k :: k in before ==> Left(after[k]) <= Left(before[k])
  }

  lemma {:induction false} WorkShrinks(before: map<JobId, Stage>, after: map<JobId, Stage>, id: JobId, ids: seq<JobId>)
    requires Advances(before, after, id)
    ensures Work(after, ids) <= Work(before, ids)
    ensures id in ids ==> Work(after, ids) < Work(before, ids)
  {
    if ids != [] { WorkShrinks(before, after, id, ids[1..]); }
  }

  lemma ReleaseAdvances(s: State, id: JobId, before: map<JobId, Stage>, moved: JobId)
    requires Advances(before, s.stage, moved)
    requires s.waiting != [] ==> s.waiting[0] in s.stage && s.stage[s.waiting[0]].Queued?
    ensures Advances(before, Release(s, id).stage, moved)
    ensures Release(s, id).order == s.order
  {
  }

  lemma QueuedHead(s: State)
    requires Inv(s)
    ensures forall id :: id in s.jobs <==> id in s.order && id in s.stage
    ensures s.waiting != [] ==> s.waiting[0] in s.stage && s.stage[s.waiting[0]].Queued?
    ensures s.ready != [] ==> s.ready[0] in s.stage && s.stage[s.ready[0]].Ready? && s.ready[0] in s.jobs
    ensures s.ready != [] && s.waiting != [] ==> s.ready[0] != s.waiting[0]
  {
    Places(s);
    if s.waiting != [] { assert s.waiting[0] in s.waiting && JobConsistent(s, s.waiting[0]); }
    if s.ready != [] { assert s.ready[0] in s.ready && JobConsistent(s, s.ready[0]); }
  }

  function Moved(s: State, e: Event): JobId
    requires Progress(s, e)
  {
    if e.StartCallback? then s.ready[0] else e.id
  }

  lemma ProgressAdvances(s: State, e: Event)
    requires Progress(s, e)
    requires s.waiting != [] ==> s.waiting[0] in s.stage && s.stage[s.waiting[0]].Queued?
    requires s.ready != [] ==> s.ready[0] in s.stage && s.stage[s.ready[0]].Ready?
    ensures Step(s, e).order == s.order
    ensures Advances(s.stage, Step(s, e).stage, Moved(s, e))
  {
    match e {
      case StartCallback =>
        var id := s.ready[0];
        assert Advances(s.stage, Begin(s).stage, id);
        if s.jobs[id].status.Cancelled? { ReleaseAdvances(Begin(s), id, s.stage, id); }
      case CallFn(id) =>
      case Settle(id, outcome) =>
      case Finally(id) => ReleaseAdvances(s.(stage := s.stage[id := Finished]), id, s.stage, id);
    }
  }

  /** Each step of the machinery is one callback nearer the end. */
  lemma ProgressShrinksWork(s: State, e: Event)
    requires Inv(s) && Progress(s, e)
    ensures Step(s, e).order == s.order
    ensures Work(Step(s, e).stage, s.order) < Work(s.stage, s.order)
  {
    QueuedHead(s);
    ProgressAdvances(s, e);
    WorkShrinks(s.stage, Step(s, e).stage, Moved(s, e), s.order);
  }

  /** Every event of the schedule is one the machinery can take without a cancelled function. */
  ghost predicate Drains(s: State, events: seq<Event>)
    decreases |events|
  {
    events == [] || (Progress(s, events[0]) && Drains(Step(s, events[0]), events[1..]))
  }

  ghost predicate CanDrainFrom(s: State) {
    exists events :: Drains(s, events) && DrainedAfter(s, events)
  }

  lemma DrainCons(s: State, e: Event)
    requires Progress(s, e) && Step(s, e).order == s.order && CanDrainFrom(Step(s, e))
    ensures CanDrainFrom(s)
  {
    var rest :| Drains(Step(s, e), rest) && DrainedAfter(Step(s, e), rest);
    var events := [e] + rest;
    assert events[0] == e && events[1..] == rest;
    assert Drains(s, events) && DrainedAfter(s, events);
  }

  /** From every reachable state the queue can drain although cancelled functions never settle. */
  lemma {:induction false} CanDrain(s: State)
    requires Inv(s)
    ensures CanDrainFrom(s)
    decreases Work(s.stage, s.order)
  {
    if e :| Progress(s, e) {
      ProgressShrinksWork(s, e);
      StepInv(s, e);
      CanDrain(Step(s, e));
      DrainCons(s, e);
    } else {
      StuckMeansDrained(s);
      var none: seq<Event> := [];
      assert Drains(s, none) && DrainedAfter(s, none);
    }
  }

  ghost predicate DrainedAfter(s: State, events: seq<Event>) {
    var t := Run(s, events);
    && t.running == 0 && t.waiting == [] && t.order == s.order
    && forall id :: id in t.jobs ==> Terminal(t.jobs[id].status)
  }

  /** Any schedule the machinery can follow is at most as long as the callbacks left to run, so a
      queue that receives no new jobs cannot run on forever. */
  lemma {:induction false} DrainsInBoundedSteps(s: State, events: seq<Event>)
    requires Inv(s) && Drains(s, events)
    ensures |events| <= Work(s.stage, s.order)
    decreases |events|
  {
    if events != [] {
      ProgressShrinksWork(s, events[0]);
      StepInv(s, events[0]);
      DrainsInBoundedSteps(Step(s, events[0]), events[1..]);
    }
  }

  // ---- When the bound on functions in flight is kept ----------------------------------------------

  lemma {:induction false} RunAppend(s: State, first: seq<Event>, second: seq<Event>)
    ensures Run(s, first + second) == Run(Run(s, first), second)
    decreases |first|
  {
    if first == [] {
      assert first + second == second;
    } else {
      assert (first + second)[1..] == first[1..] + second;
      RunAppend(Step(s, first[0]), first[1..], second);
    }
  }

  ghost predicate NoCancel(events: seq<Event>) { forall e :: e in events ==> !e.Cancel? }

  /** Whatever happens next, short of another cancel, at most `n` functions are in flight. */
  ghost predicate KeepsBound(s: State, n: nat) {
    forall events :: NoCancel(events) ==> |InFlight(Run(s, events))| <= n
  }

  /** The job was cancelled after its start callback ran and before its function settled. */
  ghost predicate CancelledLate(s: State, id: JobId) {
    id in s.jobs && s.jobs[id].status.Cancelled? && (StageIs(s, id, Started) || StageIs(s, id, InFn))
  }

  ghost predicate SomeCancelledLate(s: State) { exists id :: CancelledLate(s, id) }

  lemma ReleaseStarts(s: State, id: JobId, k: JobId)
    ensures Release(s, id).jobs == s.jobs
    ensures StageIs(Release(s, id), k, Started) ==> StageIs(s, k, Started)
    ensures StageIs(Release(s, id), k, InFn) ==> StageIs(s, k, InFn)
  {
  }

  /** Only a cancel makes a job one that was cancelled late. */
  lemma LateOnlyByCancel(s: State, e: Event, k: JobId)
    requires Inv(s) && !e.Cancel? && CancelledLate(Step(s, e), k)
    ensures CancelledLate(s, k)
  {
    hide Inv;
    if Enabled(s, e) {
      match e
      case Enqueue(id) =>
      case StartCallback =>
        if s.jobs[s.ready[0]].status.Cancelled? { ReleaseStarts(Begin(s), s.ready[0], k); }
      case CallFn(id) =>
      case Settle(id, outcome) =>
      case Finally(id) => ReleaseStarts(s.(stage := s.stage[id := Finished]), id, k);
    }
  }

  lemma {:induction false} NeverLate(s: State, events: seq<Event>)
    requires Inv(s) && NoCancel(events) && !SomeCancelledLate(s)
    ensures Inv(Run(s, events)) && !SomeCancelledLate(Run(s, events))
    ensures Run(s, events).limit == s.limit
    decreases |events|
  {
    hide Inv;
    if events != [] {
      var t := Step(s, events[0]);
      assert events[0] in events && forall e :: e in events[1..] ==> e in events;
      StepInv(s, events[0]);
      StepExtends(s, events[0]);
      forall k ensures !CancelledLate(t, k) {
        if CancelledLate(t, k) { LateOnlyByCancel(s, events[0], k); }
      }
      NeverLate(t, events[1..]);
    }
  }

  lemma NoneLateWithinBound(s: State)
    requires Inv(s) && s.limit.Some? && !SomeCancelledLate(s)
    ensures |InFlight(s)| <= s.limit.value
  {
    InFlightBound(s);
    forall id | id in CancelledInFlight(s) ensures false {
      assert CancelledLate(s, id);
    }
    assert CancelledInFlight(s) == {};
  }

  ghost predicate Lingers(s: State, id: JobId) {
    id in s.jobs && s.jobs[id].status.Cancelled? && StageIs(s, id, InFn)
  }

  /** While the queue drains, a cancelled function in flight stays in flight. */
  lemma LingersOnStep(s: State, e: Event, id: JobId)
    requires Inv(s) && Progress(s, e) && Lingers(s, id)
    ensures Lingers(Step(s, e), id)
  {
    HeadsAreOthers(s, id);
    hide Inv;
    match e {
      case StartCallback =>
        if s.jobs[s.ready[0]].status.Cancelled? { ReleaseKeepsStage(Begin(s), s.ready[0], id); }
      case CallFn(k) =>
      case Settle(k, outcome) =>
      case Finally(k) => ReleaseKeepsStage(s.(stage := s.stage[k := Finished]), k, id);
    }
  }

  lemma HeadsAreOthers(s: State, id: JobId)
    requires Inv(s) && Lingers(s, id)
    ensures s.waiting != [] ==> s.waiting[0] != id
    ensures s.ready != [] ==> s.ready[0] != id
  {
    QueuedHead(s);
  }

  lemma ReleaseKeepsStage(s: State, id: JobId, k: JobId)
    requires k in s.stage && (s.waiting != [] ==> s.waiting[0] != k)
    ensures Release(s, id).jobs == s.jobs
    ensures k in Release(s, id).stage && Release(s, id).stage[k] == s.stage[k]
  {
  }

  lemma {:induction false} LingersWhileDraining(s: State, events: seq<Event>, id: JobId)
    requires Inv(s) && Drains(s, events) && Lingers(s, id)
    ensures NoCancel(events) && Lingers(Run(s, events), id)
    ensures Inv(Run(s, events)) && Run(s, events).limit == s.limit
    decreases |events|
  {
    hide Inv;
    if events != [] {
      LingersOnStep(s, events[0], id);
      StepInv(s, events[0]);
      StepExtends(s, events[0]);
      LingersWhileDraining(Step(s, events[0]), events[1..], id);
    }
  }

  /** All slots free and nobody in line. */
  ghost predicate Idle(s: State) { s.ready == [] && s.waiting == [] }

  lemma DrainedIsIdle(s: State)
    requires Inv(s) && s.running == 0 && s.waiting == []
    ensures Idle(s)
  {
    HolderCount(s);
    Places(s);
    forall id | id in s.ready ensures id in Holders(s) {
      assert id in s.jobs && JobConsistent(s, id);
    }
    assert Holders(s) == {};
    HasMember(s.ready);
  }

  /** One more job is enqueued, started and called. */
  lemma OneMore(s: State, id: JobId)
    requires Idle(s) && HasFreeSlot(s) && id !in s.jobs && id !in s.stage
    ensures var t := Run(s, [Enqueue(id), StartCallback, CallFn(id)]);
      Idle(t) && t.limit == s.limit && t.running == s.running + 1 && t.stage == s.stage[id := InFn]
  {
    var s1 := Step(s, Enqueue(id));
    assert s1.ready == [id] && s1.running == s.running + 1;
    var s2 := Step(s1, StartCallback);
    assert s2.ready == [] && s2.stage[id] == Started && s2.running == s.running + 1;
    var e := [Enqueue(id), StartCallback, CallFn(id)];
    assert e[1..] == [StartCallback, CallFn(id)] && e[1..][1..] == [CallFn(id)] && e[1..][1..][1..] == [];
    var s3 := Step(s2, CallFn(id));
    assert Run(s2, [CallFn(id)]) == Run(s3, []);
    assert Run(s1, e[1..]) == Run(s2, [CallFn(id)]);
  }

  lemma {:induction false} FreshId(ids: set<JobId>) returns (id: JobId)
    ensures id !in ids && forall k :: k in ids ==> k < id
    decreases |ids|
  {
    if ids == {} {
      id := 0;
    } else {
      var k :| k in ids;
      var rest := FreshId(ids - {k});
      id := Max(rest, k + 1);
      assert ids == (ids - {k}) + {k};
    }
  }

  ghost predicate CanReach(s: State, flying: nat) {
    exists events :: NoCancel(events) && |InFlight(Run(s, events))| >= flying
  }

  lemma ReachBehind(s: State, first: seq<Event>, flying: nat)
    requires NoCancel(first) && CanReach(Run(s, first), flying)
    ensures CanReach(s, flying)
  {
    var second :| NoCancel(second) && |InFlight(Run(Run(s, first), second))| >= flying;
    RunAppend(s, first, second);
    assert NoCancel(first + second);
  }

  /** An idle queue can bring as many new functions into flight as it has free slots. */
  lemma {:induction false} FillUp(s: State, m: nat)
    requires Inv(s) && Idle(s) && s.limit.Some? && s.running + m <= s.limit.value
    ensures CanReach(s, |InFlight(s)| + m)
    decreases m
  {
    if m == 0 {
      StandStill(s);
    } else {
      var events := FillOne(s);
      hide *;
      FillUp(Run(s, events), m - 1);
      ReachBehind(s, events, |InFlight(s)| + m);
    }
  }

  lemma FillOne(s: State) returns (events: seq<Event>)
    requires Inv(s) && Idle(s) && s.limit.Some? && s.running < s.limit.value
    ensures NoCancel(events)
    ensures var t := Run(s, events);
      && Inv(t) && Idle(t) && t.limit == s.limit && t.running == s.running + 1
      && |InFlight(t)| == |InFlight(s)| + 1
  {
    hide Inv, Run, Step;
    var id := FreshId(s.jobs.Keys);
    events := [Enqueue(id), StartCallback, CallFn(id)];
    SameKeys(s);
    OneMore(s, id);
    RunInv(s, events);
    OneMoreInFlight(s, Run(s, events), id);
  }

  lemma OneMoreInFlight(s: State, t: State, id: JobId)
    requires id !in s.stage && t.stage == s.stage[id := InFn]
    ensures |InFlight(t)| == |InFlight(s)| + 1
  {
    assert InFlight(t) == InFlight(s) + {id};
  }

  lemma StandStill(s: State)
    ensures CanReach(s, |InFlight(s)|)
  {
    var none: seq<Event> := [];
    assert NoCancel(none) && Run(s, none) == s;
  }

  lemma SameKeys(s: State)
    requires Inv(s)
    ensures forall k :: k in s.stage <==> k in s.jobs
  {
  }

  /** From a cancelled function in flight: drain, then fill every slot. */
  lemma LingeringBreaksBound(s: State, id: JobId)
    requires Inv(s) && s.limit.Some? && Lingers(s, id)
    ensures CanReach(s, s.limit.value + 1)
  {
    CanDrain(s);
    var events :| Drains(s, events) && DrainedAfter(s, events);
    LingersWhileDraining(s, events, id);
    var t := Run(s, events);
    DrainedIsIdle(t);
    FillUp(t, t.limit.value);
    assert id in InFlight(t);
    AtLeastOne(InFlight(t), id);
    var more :| NoCancel(more) && |InFlight(Run(t, more))| >= |InFlight(t)| + t.limit.value;
    assert CanReach(t, s.limit.value + 1);
    ReachBehind(s, events, s.limit.value + 1);
  }

  lemma AtLeastOne<T>(s: set<T>, x: T)
    requires x in s
    ensures |s| >= 1
  {
  }

  lemma LateBreaksBound(s: State, id: JobId)
    requires Inv(s) && s.limit.Some? && CancelledLate(s, id)
    ensures CanReach(s, s.limit.value + 1)
  {
    hide Inv, Run;
    if StageIs(s, id, InFn) {
      LingeringBreaksBound(s, id);
    } else {
      var t, events := Step(s, CallFn(id)), [CallFn(id)];
      RunOne(s, events[0]);
      RunInv(s, events);
      LingeringBreaksBound(t, id);
      ReachBehind(s, events, s.limit.value + 1);
    }
  }

  lemma RunOne(s: State, e: Event)
    ensures Run(s, [e]) == Step(s, e)
  {
    assert [e][1..] == [];
  }

  /** The bound on functions in flight is safe from here on exactly when no job was cancelled between its
      start callback and the settling of its function. */
  lemma BoundKeptIff(s: State, n: nat)
    requires Inv(s) && s.limit == Some(n)
    ensures KeepsBound(s, n) <==> !SomeCancelledLate(s)
  {
    if SomeCancelledLate(s) {
      var id :| CancelledLate(s, id);
      LateBreaksBound(s, id);
      var events :| NoCancel(events) && |InFlight(Run(s, events))| >= n + 1;
      assert !KeepsBound(s, n);
    } else {
      forall events | NoCancel(events) ensures |InFlight(Run(s, events))| <= n {
        NeverLate(s, events);
        NoneLateWithinBound(Run(s, events));
      }
    }
  }

  /** So a cancel leaves the bound safe exactly when it was safe before and the job is not running at that
      moment, which the caller can read off its status. */
  lemma CancelKeepsBoundIff(s: State, n: nat, id: JobId)
    requires Inv(s) && s.limit == Some(n)
    ensures KeepsBound(Step(s, Cancel(id)), n) <==>
      KeepsBound(s, n) && !(id in s.jobs && s.jobs[id].status.Running?)
  {
    var t := Step(s, Cancel(id));
    StepInv(s, Cancel(id));
    StepExtends(s, Cancel(id));
    BoundKeptIff(s, n);
    BoundKeptIff(t, n);
    CancelMakesLate(s, id);
  }

  lemma CancelMakesLate(s: State, id: JobId)
    requires Inv(s)
    ensures SomeCancelledLate(Step(s, Cancel(id))) <==>
      SomeCancelledLate(s) || (id in s.jobs && s.jobs[id].status.Running?)
  {
    hide Inv, Step, CancelledLate;
    forall k ensures CancelledLate(Step(s, Cancel(id)), k) <==>
                     CancelledLate(s, k) || (k == id && id in s.jobs && s.jobs[id].status.Running?)
    {
      CancelMakesOneLate(s, id, k);
    }
    if k :| CancelledLate(s, k) { assert CancelledLate(Step(s, Cancel(id)), k); }
    if id in s.jobs && s.jobs[id].status.Running? { assert CancelledLate(Step(s, Cancel(id)), id); }
  }

  lemma RunningIsInFlight(s: State, id: JobId)
    requires Inv(s) && id in s.jobs && !Terminal(s.jobs[id].status)
    ensures s.jobs[id].status.Running? <==> StageIs(s, id, Started) || StageIs(s, id, InFn)
  {
    assert JobConsistent(s, id);
  }

  lemma CancelMakesOneLate(s: State, id: JobId, k: JobId)
    requires Inv(s)
    ensures CancelledLate(Step(s, Cancel(id)), k) <==>
      CancelledLate(s, k) || (k == id && id in s.jobs && s.jobs[id].status.Running?)
  {
    hide Inv, Step, Release;
    CancelledState(s, id);
    if id in s.jobs && !Terminal(s.jobs[id].status) {
      RunningIsInFlight(s, id);
      QueuedHead(s);
      ReleaseLate(MarkCancelled(s, id), id, k);
    }
  }

  lemma ReleaseLate(s: State, id: JobId, k: JobId)
    requires s.waiting != [] ==> s.waiting[0] in s.stage && s.stage[s.waiting[0]].Queued?
    ensures CancelledLate(Release(s, id), k) <==> CancelledLate(s, k)
  {
    if k in s.stage && (s.waiting == [] || s.waiting[0] != k) { ReleaseKeepsStage(s, id, k); }
    ReleaseStarts(s, id, k);
  }

  ghost predicate CanExceed(s: State, n: nat) { exists events :: |InFlight(Run(s, events))| >= n + 1 }

  lemma ExceedsBehind(s: State, first: seq<Event>, n: nat)
    requires CanReach(Run(s, first), n + 1)
    ensures CanExceed(s, n)
  {
    var second :| NoCancel(second) && |InFlight(Run(Run(s, first), second))| >= n + 1;
    RunAppend(s, first, second);
  }

  /** Whatever the bound, one cancel is enough for a run to exceed it. */
  lemma AnyBoundCanBeExceeded(n: nat)
    requires n >= 1
    ensures CanExceed(Init(Some(n)), n)
  {
    var s, events := Init(Some(n)), [Enqueue(0), StartCallback, CallFn(0)];
    InitInv(Some(n));
    OneMore(s, 0);
    RunInv(s, events);
    var t := Run(s, events);
    assert 0 in t.jobs && JobConsistent(t, 0);
    hide Inv, Run, Step;
    CancelMakesLate(t, 0);
    var late, cancel := events + [Cancel(0)], [Cancel(0)];
    RunAppend(s, events, cancel);
    RunOne(t, cancel[0]);
    RunInv(t, cancel);
    RunExtends(s, late);
    assert s.limit == Some(n);
    assert CancelledLate(t, 0) || t.jobs[0].status.Running?;
    var id :| CancelledLate(Run(s, late), id);
    LateBreaksBound(Run(s, late), id);
    ExceedsBehind(s, late, n);
  }

  // ---- The program ------------------------------------------------------------------------------

  /** The queue object. Each method is one synchronous stretch of the program. `ready` and `stage`
      stand for the promise reactions the event loop holds for it; the ghost fields are history. */
  class JobQueue {
    const limit: Option<nat>
    var jobs: map<JobId, Job>
    var controllers: set<JobId>
    var aborted: set<JobId>
    var running: int
    var waiting: seq<JobId>
    var ready: seq<JobId>
    var stage: map<JobId, Stage>
    ghost var order: seq<JobId>
    ghost var begun: seq<JobId>
    ghost var released: seq<JobId>
    ghost var called: seq<JobId>

    ghost function View(): State
      reads this
    {
      State(limit, jobs, controllers, aborted, running, waiting, ready, stage, order, begun, released, called)
    }

    ghost predicate Valid()
      reads this
    {
      Inv(View())
    }

    constructor (maxConcurrency: Option<int>)
      ensures Valid() && View() == Init(Limit(maxConcurrency))
    {
      limit := if maxConcurrency.None? then None else Some(Max(1, maxConcurrency.value));
      jobs, controllers, aborted := map[], {}, {};
      running, waiting, ready, stage := 0, [], [], map[];
      order, begun, released, called := [], [], [], [];
      new;
      InitInv(Limit(maxConcurrency));
    }

    /** Resolves the slot promise of `id`, which queues its start callback. */
    method Resolve(id: JobId)
      modifies this`running, this`ready, this`stage
      ensures View() == Grant(old(View()), id)
    {
      running := running + 1;
      ready := ready + [id];
      stage := stage[id := Ready];
    }

    method AcquireSlot(id: JobId)
      modifies this`running, this`ready, this`stage, this`waiting
      ensures View() == Acquire(old(View()), id)
    {
      if limit.None? || running < limit.value {
        Resolve(id);
      } else {
        waiting := waiting + [id];
        stage := stage[id := Queued];
      }
    }

    method ReleaseSlot(id: JobId)
      modifies this`controllers, this`running, this`ready, this`stage, this`waiting, this`released
      ensures View() == Release(old(View()), id)
    {
      if id !in controllers { return; }
      controllers := controllers - {id};
      running := running - 1;
      released := released + [id];
      if waiting != [] {
        var next := waiting[0];
        waiting := waiting[1..];
        Resolve(next);
      }
    }

    method EnqueueJob(id: JobId)
      requires Enabled(View(), Enqueue(id))
      modifies this
      ensures View() == Step(old(View()), Enqueue(id))
    {
      jobs := jobs[id := Job(Pending, None, None)];
      controllers := controllers + {id};
      order := order + [id];
      AcquireSlot(id);
    }

    method RunStartCallback()
      requires Enabled(View(), StartCallback)
      modifies this
      ensures View() == Step(old(View()), StartCallback)
    {
      var id := ready[0];
      ready := ready[1..];
      begun := begun + [id];
      if jobs[id].status.Cancelled? {
        stage := stage[id := Dropped];
        ReleaseSlot(id);
      } else {
        jobs := jobs[id := jobs[id].(status := Running)];
        stage := stage[id := Started];
      }
    }

    method RunFunction(id: JobId)
      requires Enabled(View(), CallFn(id))
      modifies this
      ensures View() == Step(old(View()), CallFn(id))
    {
      stage := stage[id := InFn];
      called := called + [id];
    }

    method SettleFunction(id: JobId, outcome: Outcome)
      requires Enabled(View(), Settle(id, outcome))
      modifies this
      ensures View() == Step(old(View()), Settle(id, outcome))
    {
      stage := stage[id := Settled];
      if !jobs[id].status.Cancelled? {
        match outcome {
          case Resolved(v) => jobs := jobs[id := jobs[id].(result := Some(v), status := Completed)];
          case Rejected(m) => jobs := jobs[id := jobs[id].(error := Some(m), status := Failed)];
        }
      }
      assert jobs == old(jobs)[id := Handle(old(jobs)[id], outcome)];
    }

    method RunFinally(id: JobId)
      requires Enabled(View(), Finally(id))
      modifies this
      ensures View() == Step(old(View()), Finally(id))
    {
      stage := stage[id := Finished];
      ReleaseSlot(id);
    }

    method CancelJob(id: JobId) returns (cancelled: bool)
      modifies this
      ensures View() == Step(old(View()), Cancel(id))
      ensures cancelled <==> id in old(jobs) && !Terminal(old(jobs)[id].status)
    {
      cancelled := false;
      if id in jobs {
        var job := jobs[id];
        if job.status.Pending? || job.status.Running? {
          var wasRunning := job.status.Running?;
          jobs := jobs[id := job.(status := Cancelled)];
          if id in controllers { aborted := aborted + {id}; }
          if wasRunning { ReleaseSlot(id); }
          cancelled := true;
        }
      }
    }

    /** The event loop runs one of the steps above; the invariant holds between steps. */
    method Dispatch(e: Event)
      requires Valid() && Enabled(View(), e)
      modifies this
      ensures Valid() && View() == Step(old(View()), e)
    {
      match e {
        case Enqueue(id) => EnqueueJob(id);
        case StartCallback => RunStartCallback();
        case CallFn(id) => RunFunction(id);
        case Settle(id, outcome) => SettleFunction(id, outcome);
        case Finally(id) => RunFinally(id);
        case Cancel(id) => var cancelled := CancelJob(id);
      }
      StepInv(old(View()), e);
    }
  }
}
