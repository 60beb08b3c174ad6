/** The control flow of `Tool::runFull`, `runPhysical` and `cancelRun`
    (lvtclp/ct_lvtclp_tool.cpp) and of `ToolExecutor`
    (lvtclp/ct_lvtclp_toolexecutor.cpp) as a state machine: one thread that runs, any
    number of threads that cancel, a pool of workers, and a mutex. A run is any
    interleaving of their steps. */
module RunProtocols {
  import opened Options
  import opened ObjectStores

  // ------------------------------------------------------------------
  // The executor
  // ------------------------------------------------------------------

  /** The files of a pass are numbered. `returned` holds what `tool.run` gave for the
      files that were run: 0, 1 for an error, 2 for a skipped file. */
  datatype Executor = Executor(files: nat, enqueued: nat, queue: set<nat>, running: set<nat>,
                               returned: map<nat, nat>, dropped: set<nat>) {
    function Failed(): set<nat> {
      set u | u in returned && returned[u] == 1
    }

    /** Each file is at one stage only. */
    ghost predicate Partitioned() {
      && enqueued <= files
      && (forall u: nat :: u < enqueued <==> u in queue || u in running || u in returned || u in dropped)
      && queue !! running && queue !! returned.Keys && queue !! dropped
      && running !! returned.Keys && running !! dropped && returned.Keys !! dropped
    }

    predicate Done() {
      enqueued == files && queue == {} && running == {}
    }
  }

  function NewExecutor(files: nat): Executor {
    Executor(files, 0, {}, {}, map[], {})
  }

  // ------------------------------------------------------------------
  // The state
  // ------------------------------------------------------------------

  /** The next thing the running thread does. */
  datatype RunnerPc =
    | Idle
    | FullEntry    // the first checkpoint of runFull
    | PhysEntry    // the first checkpoint of runPhysical
    | ScanCheck | Scan | SetupCheck | Setup | StateCheck | SetState // findPhysicalEntities
    | Create | Exec | Lock | Delete | Unlock | Finish // one pass
    | Reselect     // between the passes

  datatype Pass = PhysicalPass | LogicalPass

  /** The next thing a cancelling thread does; `Clear` dereferences the executor. */
  datatype CancelPc = Acquire | Flag | Read | Clear

  datatype Holder = Nobody | Runner | Canceller(id: nat)

  /** The physical pass of a run, if it has ended, and whether it noted a cancel. */
  datatype Ended = Ended(executor: Option<Executor>, cancelled: bool)

  /** How the last run ended, and how the passes did that it made. */
  datatype Outcome = Outcome(ok: bool, state: State, logical: Option<Executor>, cancelled: bool, physical: Ended)

  /** What the threads share: the executor, the pointer to it, `executorCancelled`,
      and who holds the mutex. */
  datatype Shared = Shared(live: Option<Executor>, pointer: bool, flag: bool, mutex: Holder,
                           cancellers: map<nat, CancelPc>)

  /** The locals of the running thread. */
  datatype Locals = Locals(full: bool, skipPhysical: bool, scanned: bool, pass: Pass, oldState: State,
                           doIncremental: bool, changes: bool, dbError: bool, units: nat,
                           ran: Option<Executor>, passError: bool, passCancelled: bool)

  datatype Proto = Proto(pc: RunnerPc, my: Locals, shared: Shared, state: State, physical: Ended, last: Option<Outcome>)

  /** The size of the full compilation database and the number of threads. */
  datatype Limits = Limits(allUnits: nat, maxThreads: nat)

  function Start(state: State): Proto {
    Proto(Idle,
          Locals(false, false, false, PhysicalPass, state, false, false, false, 0, None, false, false),
          Shared(None, false, false, Nobody, map[]),
          state, Ended(None, false), None)
  }

  // ------------------------------------------------------------------
  // The steps
  // ------------------------------------------------------------------

  /** What the scan found, how many units were selected, how post-processing went. */
  datatype Choice = Choice(changes: bool, selected: nat, postprocessed: bool)

  datatype Step =
    | StartFull(skipPhysical: bool)
    | StartPhysical
    | RunnerStep(choice: Choice)
    | WorkerBegin(u: nat)
    | WorkerEnd(u: nat, ret: nat)
    | CancelStart(id: nat)
    | CancelStep(id: nat)

  function Return(s: Proto, ok: bool): Proto {
    var logical := if s.my.pass.LogicalPass? then s.my.ran else None;
    s.(pc := Idle, last := Some(Outcome(ok, s.state, logical, s.my.passCancelled, s.physical)))
  }

  /** A checkpoint: a pending cancellation is used up and ends the run. */
  function Checkpoint(s: Proto, next: RunnerPc): Proto {
    if s.shared.flag then Return(s.(shared := s.shared.(flag := false)), false) else s.(pc := next)
  }

  predicate CanUpdate(state: State) {
    state == PhysicalReady || state == AllReady || state == LogicalError
  }

  predicate AtCheckpoint(pc: RunnerPc) {
    pc in {FullEntry, PhysEntry, ScanCheck, SetupCheck, StateCheck}
  }

  predicate RunnerEnabled(s: Proto) {
    match s.pc
    case Idle => false
    case Exec =>
      s.shared.live.Some? && (s.shared.live.value.enqueued < s.shared.live.value.files || s.shared.live.value.Done())
    case Lock => s.shared.mutex == Nobody
    case _ => AtCheckpoint(s.pc) ==> s.shared.mutex == Nobody
  }

  predicate WorkerEnabled(l: Limits, y: Shared, step: Step) {
    match step
    case WorkerBegin(u) => y.live.Some? && u in y.live.value.queue && |y.live.value.running| < l.maxThreads
    case WorkerEnd(u, _) => y.live.Some? && u in y.live.value.running
    case _ => false
  }

  predicate CancellerEnabled(y: Shared, id: nat) {
    id in y.cancellers && (y.cancellers[id] == Acquire ==> y.mutex == Nobody)
  }

  predicate Enabled(l: Limits, s: Proto, step: Step) {
    match step
    case StartFull(_) => s.pc == Idle
    case StartPhysical => s.pc == Idle
    case RunnerStep(c) => RunnerEnabled(s) && c.selected <= l.allUnits
    case WorkerBegin(_) => WorkerEnabled(l, s.shared, step)
    case WorkerEnd(_, _) => WorkerEnabled(l, s.shared, step)
    case CancelStart(id) => id !in s.shared.cancellers
    case CancelStep(id) => CancellerEnabled(s.shared, id)
  }

  function NextRunner(l: Limits, s: Proto, c: Choice): Proto
    requires RunnerEnabled(s)
  {
    var my, y := s.my, s.shared;
    match s.pc
    case Idle => s
    case FullEntry =>
      Checkpoint(s.(my := my.(oldState := s.state, doIncremental := s.state == AllReady)), ScanCheck)
    case PhysEntry =>
      Checkpoint(s, if my.scanned then Create else ScanCheck)
    case ScanCheck =>
      var dbError := s.state == State.Error || s.state == PhysicalError;
      Checkpoint(s.(my := my.(dbError := dbError, doIncremental := my.doIncremental && CanUpdate(s.state))), Scan)
    case Scan => s.(pc := SetupCheck, my := my.(changes := c.changes))
    case SetupCheck => Checkpoint(s, Setup)
    case Setup =>
      var units := if !my.doIncremental then l.allUnits else if my.changes then c.selected else 0;
      s.(pc := StateCheck, my := my.(units := units))
    case StateCheck => Checkpoint(s, SetState)
    case SetState =>
      s.(pc := if !my.full then Create else if my.skipPhysical then Reselect else PhysEntry,
         state := if my.changes || my.dbError then NoneReady else s.state,
         my := my.(scanned := true))
    case Create => s.(pc := Exec, shared := y.(live := Some(NewExecutor(my.units)), pointer := true))
    case Exec =>
      var e := y.live.value;
      if e.enqueued < e.files then
        s.(shared := y.(live := Some(e.(enqueued := e.enqueued + 1, queue := e.queue + {e.enqueued}))))
      else
        s.(pc := Lock, my := my.(passError := e.Failed() != {}))
    case Lock => s.(pc := Delete, shared := y.(mutex := Runner))
    case Delete => s.(pc := Unlock, my := my.(ran := y.live), shared := y.(live := None))
    case Unlock =>
      s.(pc := Finish, my := my.(passCancelled := y.flag),
          shared := y.(pointer := false, flag := false, mutex := Nobody))
    case Finish => FinishPass(s, c.postprocessed)
    case Reselect =>
      var units := if my.oldState == AllReady then my.units else l.allUnits;
      s.(pc := Create, my := my.(pass := LogicalPass, units := units))
  }

  /** After an error the physical pass still reports success, so the logical pass
      follows it; a cancelled logical pass leaves the state as it was. */
  function FinishPass(s: Proto, postprocessed: bool): Proto {
    if s.my.pass.PhysicalPass? then
      var state := if s.my.passError then PhysicalError else if s.my.passCancelled then NoneReady else PhysicalReady;
      var physical := Ended(s.my.ran, s.my.passCancelled);
      if s.my.full then s.(pc := Reselect, state := state, physical := physical)
      else Return(s.(state := state, physical := physical), true)
    else if s.my.passError then Return(s.(state := LogicalError), true)
    else if s.my.passCancelled then Return(s, postprocessed)
    else Return(s.(state := AllReady), postprocessed)
  }

  function NextWorker(y: Shared, step: Step): Shared {
    if y.live.None? then y
    else
      var e := y.live.value;
      match step
      case WorkerBegin(u) => y.(live := Some(e.(queue := e.queue - {u}, running := e.running + {u})))
      case WorkerEnd(u, ret) => y.(live := Some(e.(running := e.running - {u}, returned := e.returned[u := ret])))
      case _ => y
  }

  /** `cancelRun`; `QThreadPool::clear` drops what is queued, not what is running. */
  function NextCanceller(y: Shared, id: nat): Shared
    requires id in y.cancellers
  {
    match y.cancellers[id]
    case Acquire => y.(mutex := Canceller(id), cancellers := y.cancellers[id := Flag])
    case Flag => y.(flag := true, cancellers := y.cancellers[id := Read])
    case Read =>
      if y.pointer then y.(cancellers := y.cancellers[id := Clear])
      else y.(mutex := Nobody, cancellers := y.cancellers - {id})
    case Clear =>
      var cleared := if y.live.None? then None
                     else Some(y.live.value.(queue := {}, dropped := y.live.value.dropped + y.live.value.queue));
      y.(live := cleared, mutex := Nobody, cancellers := y.cancellers - {id})
  }

  function Next(l: Limits, s: Proto, step: Step): Proto
    requires Enabled(l, s, step)
  {
    match step
    case StartFull(skip) =>
      s.(pc := FullEntry, my := s.my.(full := true, skipPhysical := skip, scanned := false, pass := PhysicalPass),
          physical := Ended(None, false))
    case StartPhysical =>
      s.(pc := PhysEntry, my := s.my.(full := false, scanned := false, pass := PhysicalPass, doIncremental := true),
          physical := Ended(None, false))
    case RunnerStep(c) => NextRunner(l, s, c)
    case WorkerBegin(_) => s.(shared := NextWorker(s.shared, step))
    case WorkerEnd(_, _) => s.(shared := NextWorker(s.shared, step))
    case CancelStart(id) => s.(shared := s.shared.(cancellers := s.shared.cancellers[id := Acquire]))
    case CancelStep(id) => s.(shared := NextCanceller(s.shared, id))
  }

  // ------------------------------------------------------------------
  // Runs
  // ------------------------------------------------------------------

  ghost predicate IsRun(l: Limits, s: Proto, steps: seq<Step>)
    decreases steps
  {
    steps == [] || (Enabled(l, s, steps[0]) && IsRun(l, Next(l, s, steps[0]), steps[1..]))
  }

  ghost function After(l: Limits, s: Proto, steps: seq<Step>): Proto
    requires IsRun(l, s, steps)
    decreases steps
  {
    if steps == [] then s else After(l, Next(l, s, steps[0]), steps[1..])
  }

  // ------------------------------------------------------------------
  // What every interleaving keeps
  // ------------------------------------------------------------------

  predicate InPass(pc: RunnerPc) {
    pc == Exec || pc == Lock || pc == Delete
  }

  /** The executor exists just during its pass; the pointer to it is stale only while
      the running thread holds the mutex; who is past Acquire holds the mutex. */
  ghost predicate LockInv(pc: RunnerPc, y: Shared) {
    && (y.live.Some? <==> InPass(pc))
    && (y.pointer <==> InPass(pc) || pc == Unlock)
    && (y.mutex == Runner <==> pc == Delete || pc == Unlock)
    && (forall id | id in y.cancellers :: y.cancellers[id] != Acquire <==> y.mutex == Canceller(id))
    && (y.mutex.Canceller? ==> y.mutex.id in y.cancellers)
    && (forall id | id in y.cancellers && y.cancellers[id] == Clear :: y.pointer && y.flag)
    && (forall id | id in y.cancellers && y.cancellers[id] == Read :: y.flag)
  }

  /** Files are conserved, the pool is within its limit, and files are dropped only
      after the flag was set in this pass. */
  ghost predicate PoolInv(l: Limits, units: nat, y: Shared) {
    y.live.Some? ==>
      var e := y.live.value;
      e.files == units && e.Partitioned() && |e.running| <= l.maxThreads && (e.dropped != {} ==> y.flag)
  }

  /** What the running thread has noted about the pass it is in. */
  ghost predicate PassInv(s: Proto) {
    && (s.pc == Lock || s.pc == Delete ==>
          s.shared.live.Some? && s.shared.live.value.Done() && s.my.passError == (s.shared.live.value.Failed() != {}))
    && (s.pc == Unlock || s.pc == Finish ==>
          var cancelled := if s.pc == Unlock then s.shared.flag else s.my.passCancelled;
          s.my.ran.Some? && RanInv(s.my.ran.value, s.my.units, s.my.passError, cancelled))
  }

  ghost predicate RanInv(e: Executor, units: nat, error: bool, cancelled: bool) {
    && e.files == units && e.Partitioned() && e.Done()
    && error == (e.Failed() != {})
    && (e.dropped != {} ==> cancelled)
  }

  predicate BeforeSetState(pc: RunnerPc) {
    pc in {ScanCheck, Scan, SetupCheck, Setup, StateCheck, SetState}
  }

  /** In the logical pass the store is in state AllReady only if there is nothing to
      parse: no change was found, and the physical pass was skipped. */
  ghost predicate ReadyInv(pc: RunnerPc, my: Locals, state: State) {
    && (my.pass.LogicalPass? || pc == Reselect || pc == FullEntry ==> my.full)
    && (pc in {FullEntry, PhysEntry, Reselect} || BeforeSetState(pc) ==> my.pass.PhysicalPass?)
    && (my.full && pc == PhysEntry ==> my.scanned)
    && (my.full && BeforeSetState(pc) ==>
          && state == my.oldState
          && (state == AllReady ==> my.doIncremental && (pc != ScanCheck ==> !my.dbError)))
    && (my.full && (pc == StateCheck || pc == SetState) && state == AllReady && !my.changes ==> my.units == 0)
    && (pc == Reselect && state == AllReady ==> my.oldState == AllReady && my.units == 0)
    && (my.pass.LogicalPass? && pc != Idle && state == AllReady ==> my.units == 0)
  }

  /** What the end of a run that reached the logical pass says about that pass. */
  ghost predicate OutcomeInv(last: Option<Outcome>) {
    last.Some? && last.value.logical.Some? ==>
      var o, e := last.value, last.value.logical.value;
      && e.Done() && e.Partitioned()
      && (o.state == AllReady ==> e.dropped == {} && e.Failed() == {})
      && (e.Failed() != {} ==> o.state == LogicalError)
      && (e.dropped != {} ==> o.cancelled)
      && (!o.cancelled && e.Failed() == {} ==> o.state == AllReady)
  }

  /** A physical pass that has ended dropped files only if a cancel was noted. */
  ghost predicate PhysicalInv(p: Ended) {
    p.executor.Some? ==>
      var e := p.executor.value;
      e.Done() && e.Partitioned() && (e.dropped != {} ==> p.cancelled)
  }

  ghost predicate Inv(l: Limits, s: Proto) {
    && LockInv(s.pc, s.shared)
    && PoolInv(l, s.my.units, s.shared)
    && PassInv(s)
    && s.my.units <= l.allUnits
    && ReadyInv(s.pc, s.my, s.state)
    && OutcomeInv(s.last)
    && PhysicalInv(s.physical) && (s.last.Some? ==> PhysicalInv(s.last.value.physical))
  }

  lemma StartInv(l: Limits, state: State)
    ensures Inv(l, Start(state))
  {
  }

  lemma EnqueueKeepsPartition(e: Executor)
    requires e.Partitioned() && e.enqueued < e.files
    ensures e.(enqueued := e.enqueued + 1, queue := e.queue + {e.enqueued}).Partitioned()
  {
    assert e.enqueued !in e.queue && e.enqueued !in e.running && e.enqueued !in e.returned && e.enqueued !in e.dropped;
  }

  lemma ClearKeepsPartition(e: Executor)
    requires e.Partitioned()
    ensures e.(queue := {}, dropped := e.dropped + e.queue).Partitioned()
  {
  }

  lemma FinishKeepsOutcome(s: Proto, postprocessed: bool)
    requires PassInv(s) && ReadyInv(s.pc, s.my, s.state) && OutcomeInv(s.last) && s.pc == Finish
    ensures OutcomeInv(FinishPass(s, postprocessed).last)
  {
  }

  lemma FinishKeepsInv(l: Limits, s: Proto, postprocessed: bool)
    requires Inv(l, s) && s.pc == Finish
    ensures Inv(l, FinishPass(s, postprocessed))
  {
    FinishKeepsOutcome(s, postprocessed);
    var t := FinishPass(s, postprocessed);
    assert t.shared == s.shared && (t.pc == Idle || t.pc == Reselect);
  }

  predicate Preparing(pc: RunnerPc) {
    AtCheckpoint(pc) || BeforeSetState(pc) || pc == Reselect
  }

  /** Using up the flag needs the mutex, so no canceller is between setting it and
      letting go. */
  lemma CheckpointKeepsLock(y: Shared, pc: RunnerPc, next: RunnerPc)
    requires LockInv(pc, y) && y.mutex == Nobody && !y.pointer
    requires !InPass(next) && next != Unlock
    ensures LockInv(next, y) && LockInv(next, y.(flag := false))
  {
  }

  lemma CheckpointKeepsReady(l: Limits, s: Proto, c: Choice)
    requires ReadyInv(s.pc, s.my, s.state) && RunnerEnabled(s) && AtCheckpoint(s.pc)
    ensures var t := NextRunner(l, s, c); ReadyInv(t.pc, t.my, t.state)
  {
  }

  lemma ScanKeepsReady(l: Limits, s: Proto, c: Choice)
    requires ReadyInv(s.pc, s.my, s.state) && RunnerEnabled(s)
    requires s.pc == Scan || s.pc == Setup || s.pc == SetState || s.pc == Reselect
    ensures var t := NextRunner(l, s, c); ReadyInv(t.pc, t.my, t.state)
  {
  }

  lemma CheckpointKeepsInv(l: Limits, s: Proto, c: Choice)
    requires Inv(l, s) && RunnerEnabled(s) && AtCheckpoint(s.pc)
    ensures Inv(l, NextRunner(l, s, c))
  {
    var t := NextRunner(l, s, c);
    CheckpointKeepsReady(l, s, c);
    assert t.shared == s.shared || t.shared == s.shared.(flag := false);
    assert !InPass(t.pc) && t.pc != Unlock && t.pc != Finish;
    CheckpointKeepsLock(s.shared, s.pc, t.pc);
    PreparingKeepsPasses(l, s, c);
  }

  lemma ScanKeepsInv(l: Limits, s: Proto, c: Choice)
    requires Inv(l, s) && RunnerEnabled(s) && c.selected <= l.allUnits
    requires s.pc == Scan || s.pc == Setup || s.pc == SetState || s.pc == Reselect
    ensures Inv(l, NextRunner(l, s, c))
  {
    var t := NextRunner(l, s, c);
    ScanKeepsReady(l, s, c);
    assert t.shared == s.shared && t.last == s.last && t.physical == s.physical;
    assert !InPass(t.pc) && t.pc != Unlock && t.pc != Finish;
  }

  lemma PreparingKeepsInv(l: Limits, s: Proto, c: Choice)
    requires Inv(l, s) && RunnerEnabled(s) && Preparing(s.pc) && c.selected <= l.allUnits
    ensures Inv(l, NextRunner(l, s, c))
  {
    if AtCheckpoint(s.pc) { CheckpointKeepsInv(l, s, c); } else { ScanKeepsInv(l, s, c); }
  }

  lemma PreparingKeepsPasses(l: Limits, s: Proto, c: Choice)
    requires RunnerEnabled(s) && Preparing(s.pc) && (s.pc == Reselect || s.my.pass.PhysicalPass?)
    ensures var t := NextRunner(l, s, c); t.physical == s.physical && (t.last == s.last || EndsEarly(s, t.last))
  {
  }

  predicate EndsEarly(s: Proto, last: Option<Outcome>) {
    last.Some? && last.value.logical == None && last.value.physical == s.physical
  }

  lemma ExecKeepsInv(l: Limits, s: Proto, c: Choice)
    requires Inv(l, s) && RunnerEnabled(s) && (s.pc == Create || s.pc == Exec)
    ensures Inv(l, NextRunner(l, s, c))
  {
    if s.pc == Exec && s.shared.live.value.enqueued < s.shared.live.value.files {
      EnqueueKeepsPartition(s.shared.live.value);
    }
  }

  lemma TailKeepsInv(l: Limits, s: Proto, c: Choice)
    requires Inv(l, s) && RunnerEnabled(s) && s.pc in {Lock, Delete, Unlock}
    ensures Inv(l, NextRunner(l, s, c))
  {
  }

  lemma RunnerKeepsInv(l: Limits, s: Proto, c: Choice)
    requires Inv(l, s) && RunnerEnabled(s) && c.selected <= l.allUnits
    ensures Inv(l, NextRunner(l, s, c))
  {
    if Preparing(s.pc) {
      PreparingKeepsInv(l, s, c);
    } else if s.pc == Create || s.pc == Exec {
      ExecKeepsInv(l, s, c);
    } else if s.pc == Finish {
      FinishKeepsInv(l, s, c.postprocessed);
    } else {
      TailKeepsInv(l, s, c);
    }
  }

  lemma WorkerKeepsInv(l: Limits, s: Proto, step: Step)
    requires Inv(l, s) && WorkerEnabled(l, s.shared, step)
    ensures Inv(l, s.(shared := NextWorker(s.shared, step)))
  {
  }

  lemma CancellerKeepsLock(pc: RunnerPc, y: Shared, id: nat)
    requires LockInv(pc, y) && CancellerEnabled(y, id)
    ensures LockInv(pc, NextCanceller(y, id))
  {
  }

  lemma CancellerKeepsPool(l: Limits, pc: RunnerPc, units: nat, y: Shared, id: nat)
    requires LockInv(pc, y) && PoolInv(l, units, y) && CancellerEnabled(y, id)
    ensures PoolInv(l, units, NextCanceller(y, id))
  {
    if y.cancellers[id] == Clear {
      ClearKeepsPartition(y.live.value);
    }
  }

  lemma CancellerKeepsPass(s: Proto, id: nat)
    requires LockInv(s.pc, s.shared) && PassInv(s) && CancellerEnabled(s.shared, id)
    ensures PassInv(s.(shared := NextCanceller(s.shared, id)))
  {
  }

  lemma StepKeepsInv(l: Limits, s: Proto, step: Step)
    requires Inv(l, s) && Enabled(l, s, step)
    ensures Inv(l, Next(l, s, step))
  {
    match step
    case RunnerStep(c) => RunnerKeepsInv(l, s, c);
    case WorkerBegin(_) => WorkerKeepsInv(l, s, step);
    case WorkerEnd(_, _) => WorkerKeepsInv(l, s, step);
    case CancelStart(_) =>
    case CancelStep(id) =>
      CancellerKeepsLock(s.pc, s.shared, id);
      CancellerKeepsPool(l, s.pc, s.my.units, s.shared, id);
      CancellerKeepsPass(s, id);
    case _ =>
  }

  lemma {:induction false} RunKeepsInv(l: Limits, s: Proto, steps: seq<Step>)
    requires Inv(l, s) && IsRun(l, s, steps)
    ensures Inv(l, After(l, s, steps))
    decreases steps
  {
    if steps != [] {
      StepKeepsInv(l, s, steps[0]);
      RunKeepsInv(l, Next(l, s, steps[0]), steps[1..]);
    }
  }

  // ------------------------------------------------------------------
  // What holds of all runs
  // ------------------------------------------------------------------

  /** Whatever is cancelled when: if a run reached the logical pass and the store is in
      state AllReady on return, then each file of that pass was run and none failed.
      A failure shows as LogicalError, and without a cancel the pass ends AllReady. */
  lemma ReadyMeansParsed(l: Limits, state: State, steps: seq<Step>)
    requires IsRun(l, Start(state), steps)
    ensures var last := After(l, Start(state), steps).last;
            last.Some? && last.value.logical.Some? ==>
              var o, e := last.value, last.value.logical.value;
              && (o.state == AllReady ==>
                    (forall u: nat :: u < e.files ==> u in e.returned && e.returned[u] != 1))
              && ((exists u :: u in e.returned && e.returned[u] == 1) ==> o.state == LogicalError)
              && (!o.cancelled && (forall u :: u in e.returned ==> e.returned[u] != 1) ==> o.state == AllReady)
  {
    StartInv(l, state);
    RunKeepsInv(l, Start(state), steps);
    var last := After(l, Start(state), steps).last;
    if last.Some? && last.value.logical.Some? {
      var e := last.value.logical.value;
      forall u: nat | u in e.returned && e.returned[u] == 1 ensures u in e.Failed() {}
      assert e.Failed() != {} ==> exists u :: u in e.Failed();
    }
  }

  /** A cancelling thread that is about to use the executor holds the mutex, and the
      executor is alive, although it is created without the mutex. */
  lemma CancelSeesLiveExecutor(l: Limits, state: State, steps: seq<Step>, id: nat)
    requires IsRun(l, Start(state), steps)
    ensures var y := After(l, Start(state), steps).shared;
            id in y.cancellers && y.cancellers[id] == Clear ==> y.mutex == Canceller(id) && y.live.Some?
  {
    StartInv(l, state);
    RunKeepsInv(l, Start(state), steps);
  }

  /** The tail section of a pass notes whether it was cancelled and uses the cancel up;
      if files were dropped from the pool, it does note it. */
  lemma TailUsesUpCancel(l: Limits, state: State, steps: seq<Step>, c: Choice)
    requires IsRun(l, Start(state), steps)
    ensures var s := After(l, Start(state), steps);
            s.pc == Unlock ==>
              var t := NextRunner(l, s, c);
              && !t.shared.flag && !t.shared.pointer && t.shared.live.None?
              && t.my.ran.Some? && (t.my.ran.value.dropped != {} ==> t.my.passCancelled)
              && forall u: nat :: u < t.my.units <==> u in t.my.ran.value.returned || u in t.my.ran.value.dropped
  {
    StartInv(l, state);
    RunKeepsInv(l, Start(state), steps);
  }

  /** At all times the files of the pass are conserved and the pool keeps its limit. A
      pass that saw no cancel ran every file, and it reports an error if and only if
      some file that was run returned 1. */
  lemma FilesAreConserved(l: Limits, state: State, steps: seq<Step>)
    requires IsRun(l, Start(state), steps)
    ensures var s := After(l, Start(state), steps);
            && (s.shared.live.Some? ==>
                  s.shared.live.value.Partitioned() && |s.shared.live.value.running| <= l.maxThreads)
            && (s.pc == Finish ==>
                  && s.my.ran.Some?
                  && (!s.my.passCancelled ==> forall u: nat :: u < s.my.units <==> u in s.my.ran.value.returned)
                  && (s.my.passError <==> exists u :: u in s.my.ran.value.returned && s.my.ran.value.returned[u] == 1))
  {
    StartInv(l, state);
    RunKeepsInv(l, Start(state), steps);
    var s := After(l, Start(state), steps);
    if s.pc == Finish {
      var e := s.my.ran.value;
      assert s.my.passError ==> exists u :: u in e.Failed();
      forall u: nat | u in e.returned && e.returned[u] == 1 ensures u in e.Failed() {}
    }
  }

  /** While a run is under way some thread can take a step of it, without another
      cancel. */
  lemma NeverStuck(l: Limits, s: Proto) returns (step: Step)
    requires Inv(l, s) && s.pc != Idle && l.maxThreads >= 1
    ensures Enabled(l, s, step) && OfThisRun(step) && !step.CancelStart?
  {
    if s.shared.mutex.Canceller? {
      step := CancelStep(s.shared.mutex.id);
    } else if RunnerEnabled(s) {
      step := RunnerStep(Choice(false, 0, true));
    } else {
      var e := s.shared.live.value;
      if e.running != {} {
        var u :| u in e.running;
        step := WorkerEnd(u, 0);
      } else {
        var u :| u in e.queue;
        step := WorkerBegin(u);
      }
    }
  }

  predicate OfThisRun(step: Step) {
    !step.StartFull? && !step.StartPhysical?
  }

  // ------------------------------------------------------------------
  // Runs end
  // ------------------------------------------------------------------

  /** Three steps for a file to be queued, two for a queued one, one for a running one. */
  function WorkOf(e: Executor): nat {
    if e.enqueued <= e.files then 3 * (e.files - e.enqueued) + 2 * |e.queue| + |e.running| else 0
  }

  function Work(s: Proto): nat {
    if s.pc == Exec && s.shared.live.Some? then WorkOf(s.shared.live.value) else 0
  }

  lemma BeginLowersWork(e: Executor, u: nat)
    requires e.Partitioned() && u in e.queue
    ensures WorkOf(e.(queue := e.queue - {u}, running := e.running + {u})) < WorkOf(e)
  {
    assert |e.queue - {u}| == |e.queue| - 1 && |e.running + {u}| == |e.running| + 1;
  }

  lemma EndLowersWork(e: Executor, u: nat, ret: nat)
    requires e.Partitioned() && u in e.running
    ensures WorkOf(e.(running := e.running - {u}, returned := e.returned[u := ret])) < WorkOf(e)
  {
    assert |e.running - {u}| == |e.running| - 1;
  }

  lemma WorkersLowerWork(y: Shared, step: Step, l: Limits)
    requires WorkerEnabled(l, y, step) && y.live.value.Partitioned()
    ensures var t := NextWorker(y, step); t.live.Some? && WorkOf(t.live.value) < WorkOf(y.live.value)
  {
    if step.WorkerBegin? {
      BeginLowersWork(y.live.value, step.u);
    } else {
      EndLowersWork(y.live.value, step.u, step.ret);
    }
  }

  lemma CancellersKeepWork(y: Shared, id: nat)
    requires CancellerEnabled(y, id)
    ensures var t := NextCanceller(y, id);
            (y.live.Some? <==> t.live.Some?) && (y.live.Some? ==> WorkOf(t.live.value) <= WorkOf(y.live.value))
  {
  }

  /** The number of stretches still ahead of the running thread. */
  function Stage(s: Proto): nat {
    var later := if s.my.pass.PhysicalPass? then 7 else 0;
    match s.pc
    case Idle => 0
    case Finish => 1 + later
    case Unlock => 2 + later
    case Delete => 3 + later
    case Lock => 4 + later
    case Exec => 5 + later
    case Create => 6 + later
    case Reselect => 7
    case PhysEntry => if s.my.scanned then 14 else 21
    case SetState => 15
    case StateCheck => 16
    case Setup => 17
    case SetupCheck => 18
    case Scan => 19
    case ScanCheck => 20
    case FullEntry => 21
  }

  function Times(n: nat, k: nat): nat {
    if n == 0 then 0 else k + Times(n - 1, k)
  }

  lemma {:induction false} TimesLess(a: nat, b: nat, k: nat)
    requires a < b
    ensures Times(a, k) + k <= Times(b, k)
    decreases b
  {
    if a < b - 1 { TimesLess(a, b - 1, k); }
  }

  /** A stage takes at most three steps per file, and one more. */
  function Rank(l: Limits, s: Proto): nat {
    Work(s) + Times(Stage(s), 3 * l.allUnits + 1)
  }

  lemma EnqueueLowersWork(e: Executor)
    requires e.Partitioned() && e.enqueued < e.files
    ensures WorkOf(e.(enqueued := e.enqueued + 1, queue := e.queue + {e.enqueued})) < WorkOf(e)
  {
    assert |e.queue + {e.enqueued}| == |e.queue| + 1;
  }

  lemma NewWorkIsBounded(l: Limits, s: Proto, c: Choice)
    requires Inv(l, s) && RunnerEnabled(s) && c.selected <= l.allUnits
    requires s.pc != Exec || NextRunner(l, s, c).pc != Exec
    ensures Work(NextRunner(l, s, c)) <= 3 * l.allUnits
  {
    assert NextRunner(l, s, c).pc == Exec ==> s.pc == Create;
  }

  lemma LowerStageLowersRank(l: Limits, s: Proto, t: Proto)
    requires Stage(t) < Stage(s) && Work(t) <= 3 * l.allUnits
    ensures Rank(l, t) < Rank(l, s)
  {
    TimesLess(Stage(t), Stage(s), 3 * l.allUnits + 1);
  }

  lemma RunnerLowersRank(l: Limits, s: Proto, c: Choice)
    requires Inv(l, s) && RunnerEnabled(s) && c.selected <= l.allUnits
    ensures Rank(l, NextRunner(l, s, c)) < Rank(l, s)
  {
    if s.pc == Exec && NextRunner(l, s, c).pc == Exec {
      EnqueueLowersWork(s.shared.live.value);
    } else {
      StageFalls(l, s, c);
      NewWorkIsBounded(l, s, c);
      LowerStageLowersRank(l, s, NextRunner(l, s, c));
    }
  }

  lemma StageFalls(l: Limits, s: Proto, c: Choice)
    requires Inv(l, s) && RunnerEnabled(s)
    ensures var t := NextRunner(l, s, c); (s.pc == Exec && t.pc == Exec) || Stage(t) < Stage(s)
  {
  }

  lemma RankOfShared(l: Limits, s: Proto, y: Shared)
    ensures var t := s.(shared := y); Rank(l, t) - Work(t) == Rank(l, s) - Work(s)
  {
  }

  /** The steps the cancelling threads still have to take. */
  function CancelWork(y: Shared): (n: int)
    ensures n >= 0
  {
    if y.mutex.Canceller? && y.mutex.id in y.cancellers then
      assert |y.cancellers.Keys - {y.mutex.id}| == |y.cancellers| - 1;
      4 * |y.cancellers| - CancelsDone(y.cancellers[y.mutex.id])
    else 4 * |y.cancellers|
  }

  function CancelsDone(pc: CancelPc): nat {
    match pc case Acquire => 0 case Flag => 1 case Read => 2 case Clear => 3
  }

  lemma CancelStepLowersWork(pc: RunnerPc, y: Shared, id: nat)
    requires LockInv(pc, y) && CancellerEnabled(y, id)
    ensures CancelWork(NextCanceller(y, id)) < CancelWork(y)
  {
    var t := NextCanceller(y, id);
    if id in t.cancellers {
      assert t.cancellers.Keys == y.cancellers.Keys;
    } else {
      assert t.cancellers.Keys == y.cancellers.Keys - {id};
    }
  }

  lemma CancelStartAddsWork(pc: RunnerPc, y: Shared, id: nat)
    requires LockInv(pc, y) && id !in y.cancellers
    ensures CancelWork(y.(cancellers := y.cancellers[id := Acquire])) == CancelWork(y) + 4
  {
    assert y.cancellers[id := Acquire].Keys == y.cancellers.Keys + {id};
  }

  lemma RunnerKeepsCancelWork(l: Limits, s: Proto, c: Choice)
    requires Inv(l, s) && RunnerEnabled(s)
    ensures CancelWork(NextRunner(l, s, c).shared) == CancelWork(s.shared)
  {
    var y, t := s.shared, NextRunner(l, s, c).shared;
    assert t.cancellers == y.cancellers && (t.mutex == y.mutex || !(t.mutex.Canceller? || y.mutex.Canceller?));
  }

  /** What a run has before it: the runner, the workers, and the cancelling threads. */
  function Ahead(l: Limits, s: Proto): int {
    Rank(l, s) + CancelWork(s.shared)
  }

  lemma StepGetsAhead(l: Limits, s: Proto, step: Step)
    requires Inv(l, s) && Enabled(l, s, step) && OfThisRun(step)
    ensures Ahead(l, Next(l, s, step)) < Ahead(l, s) + if step.CancelStart? then 5 else 0
  {
    match step
    case RunnerStep(c) =>
      RunnerLowersRank(l, s, c);
      RunnerKeepsCancelWork(l, s, c);
    case CancelStart(id) =>
      RankOfShared(l, s, Next(l, s, step).shared);
      CancelStartAddsWork(s.pc, s.shared, id);
    case CancelStep(id) =>
      CancellersKeepWork(s.shared, id);
      RankOfShared(l, s, NextCanceller(s.shared, id));
      CancelStepLowersWork(s.pc, s.shared, id);
    case _ =>
      WorkersLowerWork(s.shared, step, l);
      RankOfShared(l, s, NextWorker(s.shared, step));
  }

  function CancelsStarted(steps: seq<Step>): nat {
    if steps == [] then 0 else (if steps[0].CancelStart? then 1 else 0) + CancelsStarted(steps[1..])
  }

  /** With any number of cancels, the number of steps of all threads together is
      bounded, and a run that is as long as the bound has ended. */
  lemma {:induction false} RunsAreBounded(l: Limits, s: Proto, steps: seq<Step>)
    requires Inv(l, s) && IsRun(l, s, steps) && forall step | step in steps :: OfThisRun(step)
    ensures |steps| + Ahead(l, After(l, s, steps)) <= Ahead(l, s) + 5 * CancelsStarted(steps)
    ensures |steps| >= Ahead(l, s) + 5 * CancelsStarted(steps) ==> After(l, s, steps).pc == Idle
    decreases steps
  {
    if steps != [] {
      StepKeepsInv(l, s, steps[0]);
      StepGetsAhead(l, s, steps[0]);
      RunsAreBounded(l, Next(l, s, steps[0]), steps[1..]);
    }
  }

  /** So a run ends if no more than finitely many cancels come: as long as it has not
      ended some thread can go on, and going on for long enough ends it. Here without
      another cancel. */
  lemma {:induction false} RunsEnd(l: Limits, s: Proto) returns (steps: seq<Step>)
    requires Inv(l, s) && l.maxThreads >= 1
    ensures IsRun(l, s, steps) && After(l, s, steps).pc == Idle && |steps| <= Ahead(l, s)
    ensures forall step | step in steps :: OfThisRun(step) && !step.CancelStart?
    decreases Ahead(l, s)
  {
    steps := [];
    if s.pc != Idle {
      var step := NeverStuck(l, s);
      StepKeepsInv(l, s, step);
      StepGetsAhead(l, s, step);
      var rest := RunsEnd(l, Next(l, s, step));
      steps := [step] + rest;
      assert steps[1..] == rest;
    }
  }

  // ------------------------------------------------------------------
  // A cancel that comes too late
  // ------------------------------------------------------------------

  /** A cancel after the last pass of a run is not lost: it stays pending, whatever the
      other threads do, and the next run gives up at its first checkpoint with the
      store as it was. */
  lemma {:induction false} PendingCancelEndsNextRun(l: Limits, s: Proto, others: seq<Step>, c: Choice)
    requires Inv(l, s) && IsRun(l, s, others) && s.shared.flag && (s.pc == FullEntry || s.pc == PhysEntry)
    requires forall step | step in others :: !step.RunnerStep?
    ensures var t := After(l, s, others);
            && t.shared.flag && t.pc == s.pc && t.state == s.state
            && (RunnerEnabled(t) ==>
                  var u := NextRunner(l, t, c);
                  u.pc == Idle && u.state == s.state && !u.shared.flag && u.last.Some? && !u.last.value.ok)
    decreases others
  {
    if others != [] {
      StepKeepsInv(l, s, others[0]);
      PendingCancelEndsNextRun(l, Next(l, s, others[0]), others[1..], c);
    }
  }

  /** A run from AllReady that is cancelled after its scan, before it writes the state,
      returns with the store still marked AllReady, although the scan has already
      replaced the hashes of modified files. */
  lemma CancelAfterScanStaysReady(l: Limits, state: State, steps: seq<Step>, c: Choice)
    requires IsRun(l, Start(state), steps)
    ensures var s := After(l, Start(state), steps);
            s.my.full && s.my.oldState == AllReady && (s.pc == SetupCheck || s.pc == StateCheck)
            && s.shared.flag && RunnerEnabled(s) ==>
              var t := NextRunner(l, s, c);
              t.pc == Idle && t.state == AllReady && t.last.Some? && !t.last.value.ok
  {
    StartInv(l, state);
    RunKeepsInv(l, Start(state), steps);
  }

  // ------------------------------------------------------------------
  // How a run goes
  // ------------------------------------------------------------------

  /** Whether an update is made, from the state st the run starts in. */
  predicate Updates(full: bool, st: State) {
    if full then st == AllReady else st == PhysicalReady || st == AllReady || st == LogicalError
  }

  /** The state after the scan and the deletion. */
  predicate ScannedState(st: State, changes: bool, state: State) {
    if changes || st == State.Error || st == PhysicalError then state == NoneReady else state == st
  }

  /** The state a physical pass leaves: an error comes before a cancel. */
  predicate PhysicalEnd(p: Ended, state: State) {
    p.executor.Some? &&
    if exists u :: u in p.executor.value.returned && p.executor.value.returned[u] == 1 then state == PhysicalError
    else if p.cancelled then state == NoneReady
    else state == PhysicalReady
  }

  predicate Picked(l: Limits, full: bool, st: State, my: Locals) {
    && (!Updates(full, st) ==> my.units == l.allUnits)
    && (Updates(full, st) && !my.changes ==> my.units == 0)
  }

  /** Between the passes of a full run, and in the logical pass. */
  predicate Between(l: Limits, skip: bool, st: State, my: Locals, state: State, physical: Ended) {
    && my.oldState == st && Picked(l, true, st, my)
    && if skip then physical.executor == None && ScannedState(st, my.changes, state)
       else PhysicalEnd(physical, state) && physical.executor.value.files == my.units
  }

  /** How a run ends. A full run that gets past its checkpoints makes both passes, over the
      same number of units, whatever became of the first one; it makes just the logical
      pass if told so. */
  predicate EndsRight(l: Limits, full: bool, skip: bool, st: State, o: Outcome, physical: Ended) {
    && o.physical == physical
    && if full && o.logical.Some? then
         var e := o.logical.value;
         && (if skip then physical.executor == None
             else physical.executor.Some? && physical.executor.value.files == e.files)
         && (st != AllReady ==> e.files == l.allUnits)
         && (if exists u :: u in e.returned && e.returned[u] == 1 then o.state == LogicalError && o.ok
             else if !o.cancelled then o.state == AllReady
             else if skip then o.state == st || o.state == NoneReady
             else PhysicalEnd(physical, o.state))
       else if physical.executor.Some? then
         && !full && o.logical == None && o.ok && PhysicalEnd(physical, o.state)
         && (!Updates(full, st) ==> physical.executor.value.files == l.allUnits)
       else !o.ok && o.logical == None && (o.state == st || o.state == NoneReady)
  }

  predicate InSomePass(pc: RunnerPc) {
    pc == Create || InPass(pc) || pc == Unlock || pc == Finish
  }

  /** Before the state is written after the scan. */
  predicate ScansOnTrack(l: Limits, full: bool, st: State, pc: RunnerPc, my: Locals, state: State, physical: Ended) {
    && state == st && physical.executor == None && !my.scanned && my.pass.PhysicalPass?
    && (pc == FullEntry ==> full) && (pc == PhysEntry ==> !full)
    && (pc != FullEntry && full ==> my.oldState == st)
    && (pc == ScanCheck || pc == PhysEntry ==> my.doIncremental == (full ==> st == AllReady))
    && (pc in {Scan, SetupCheck, Setup, StateCheck, SetState} ==>
          my.doIncremental == Updates(full, st) && my.dbError == (st == State.Error || st == PhysicalError))
    && (pc == StateCheck || pc == SetState ==> Picked(l, full, st, my))
  }

  /** From then on to the end of the physical pass. */
  predicate PassOnTrack(l: Limits, full: bool, skip: bool, st: State, my: Locals, state: State, physical: Ended) {
    && my.scanned && physical.executor == None && (full ==> !skip && my.oldState == st)
    && Picked(l, full, st, my) && ScannedState(st, my.changes, state)
  }

  ghost predicate OnTrackAt(l: Limits, full: bool, skip: bool, st: State,
                            pc: RunnerPc, my: Locals, state: State, physical: Ended, last: Option<Outcome>)
  {
    && my.full == full && (full ==> my.skipPhysical == skip)
    && if pc == Idle then
         last.Some? && last.value.state == state && EndsRight(l, full, skip, st, last.value, physical)
       else if pc == Reselect || (InSomePass(pc) && my.pass.LogicalPass?) then
         full && Between(l, skip, st, my, state, physical)
       else if InSomePass(pc) || (pc == PhysEntry && my.scanned) then
         my.pass.PhysicalPass? && PassOnTrack(l, full, skip, st, my, state, physical)
       else
         ScansOnTrack(l, full, st, pc, my, state, physical)
  }

  ghost predicate OnTrack(l: Limits, full: bool, skip: bool, st: State, t: Proto) {
    OnTrackAt(l, full, skip, st, t.pc, t.my, t.state, t.physical, t.last)
  }

  lemma StartOnTrack(l: Limits, s: Proto, start: Step)
    requires Inv(l, s) && !OfThisRun(start) && Enabled(l, s, start)
    ensures OnTrack(l, start.StartFull?, start.StartFull? && start.skipPhysical, s.state, Next(l, s, start))
  {
  }

  lemma FailedReturnsOne(e: Executor)
    ensures e.Failed() != {} <==> exists u :: u in e.returned && e.returned[u] == 1
  {
    if u :| u in e.returned && e.returned[u] == 1 { assert u in e.Failed(); }
    if e.Failed() != {} { var u :| u in e.Failed(); }
  }

  lemma PhysicalFinishOnTrack(l: Limits, full: bool, skip: bool, st: State, t: Proto, c: Choice)
    requires PassInv(t) && OnTrack(l, full, skip, st, t) && t.pc == Finish && t.my.pass.PhysicalPass?
    ensures OnTrack(l, full, skip, st, FinishPass(t, c.postprocessed))
  {
    var u := FinishPass(t, c.postprocessed);
    FailedReturnsOne(t.my.ran.value);
    assert PhysicalEnd(u.physical, u.state);
  }

  lemma LogicalFinishOnTrack(l: Limits, full: bool, skip: bool, st: State, t: Proto, c: Choice)
    requires PassInv(t) && ReadyInv(t.pc, t.my, t.state) && OnTrack(l, full, skip, st, t)
    requires t.pc == Finish && t.my.pass.LogicalPass?
    ensures OnTrack(l, full, skip, st, FinishPass(t, c.postprocessed))
  {
    FailedReturnsOne(t.my.ran.value);
    var u := FinishPass(t, c.postprocessed);
    assert u.last.value.logical == t.my.ran && u.physical == t.physical;
  }

  /** What the run reports at the end: success after a failure, and else what came of the
      post-processing. */
  lemma LogicalPassReports(l: Limits, t: Proto, c: Choice)
    requires Inv(l, t) && t.pc == Finish && t.my.pass.LogicalPass?
    ensures var o := NextRunner(l, t, c).last;
            o.Some? && o.value.logical.Some? &&
            var e := o.value.logical.value;
            o.value.ok == ((exists u :: u in e.returned && e.returned[u] == 1) || c.postprocessed)
  {
    FailedReturnsOne(t.my.ran.value);
  }

  lemma ReturnOnTrack(l: Limits, full: bool, skip: bool, st: State, my: Locals, s: Proto)
    requires full == my.full && (full ==> my.skipPhysical == skip)
    requires s.my == my && my.pass.PhysicalPass? && s.physical.executor == None
    requires s.state == st || s.state == NoneReady
    ensures OnTrack(l, full, skip, st, Return(s, false))
  {
  }

  lemma EntryOnTrack(l: Limits, full: bool, skip: bool, st: State, t: Proto, c: Choice)
    requires OnTrack(l, full, skip, st, t) && (t.pc == FullEntry || t.pc == PhysEntry)
    requires RunnerEnabled(t) && !t.shared.flag
    ensures OnTrack(l, full, skip, st, NextRunner(l, t, c))
  {
  }

  lemma CheckpointOnTrack(l: Limits, full: bool, skip: bool, st: State, t: Proto, c: Choice)
    requires OnTrack(l, full, skip, st, t) && RunnerEnabled(t) && !t.shared.flag
    requires t.pc == ScanCheck || t.pc == SetupCheck || t.pc == StateCheck
    ensures OnTrack(l, full, skip, st, NextRunner(l, t, c))
  {
  }

  lemma CutOnTrack(l: Limits, full: bool, skip: bool, st: State, t: Proto, c: Choice)
    requires OnTrack(l, full, skip, st, t) && RunnerEnabled(t) && AtCheckpoint(t.pc) && t.shared.flag
    ensures OnTrack(l, full, skip, st, NextRunner(l, t, c))
  {
    var u := NextRunner(l, t, c);
    var before := t.(my := u.my, shared := t.shared.(flag := false));
    assert u == Return(before, false);
    ReturnOnTrack(l, full, skip, st, u.my, before);
  }

  lemma ScanOnTrack(l: Limits, full: bool, skip: bool, st: State, t: Proto, c: Choice)
    requires Inv(l, t) && OnTrack(l, full, skip, st, t) && RunnerEnabled(t)
    requires t.pc == Scan || t.pc == Setup || t.pc == SetState || t.pc == Reselect
    ensures OnTrack(l, full, skip, st, NextRunner(l, t, c))
  {
  }

  /** What it notes of the executor is no part of it. */
  lemma NotesLeaveTrack(l: Limits, full: bool, skip: bool, st: State, t: Proto, pc: RunnerPc, my: Locals)
    requires OnTrack(l, full, skip, st, t) && InSomePass(t.pc) && InSomePass(pc)
    requires my == t.my.(ran := my.ran, passError := my.passError, passCancelled := my.passCancelled)
    ensures OnTrackAt(l, full, skip, st, pc, my, t.state, t.physical, t.last)
  {
  }

  lemma PassStepOnTrack(l: Limits, full: bool, skip: bool, st: State, t: Proto, c: Choice)
    requires OnTrack(l, full, skip, st, t) && RunnerEnabled(t) && InSomePass(t.pc) && t.pc != Finish
    ensures OnTrack(l, full, skip, st, NextRunner(l, t, c))
  {
    var u := NextRunner(l, t, c);
    PassStepNotes(l, t, c);
    NotesLeaveTrack(l, full, skip, st, t, u.pc, u.my);
  }

  lemma PassStepNotes(l: Limits, t: Proto, c: Choice)
    requires RunnerEnabled(t) && InSomePass(t.pc) && t.pc != Finish
    ensures var u := NextRunner(l, t, c);
            && InSomePass(u.pc) && u.state == t.state && u.physical == t.physical && u.last == t.last
            && u.my == t.my.(ran := u.my.ran, passError := u.my.passError, passCancelled := u.my.passCancelled)
  {
  }

  lemma RunnerOnTrack(l: Limits, full: bool, skip: bool, st: State, t: Proto, c: Choice)
    requires Inv(l, t) && OnTrack(l, full, skip, st, t) && RunnerEnabled(t)
    ensures OnTrack(l, full, skip, st, NextRunner(l, t, c))
  {
    if t.pc == Finish {
      if t.my.pass.PhysicalPass? { PhysicalFinishOnTrack(l, full, skip, st, t, c); }
      else { LogicalFinishOnTrack(l, full, skip, st, t, c); }
    }
    else if InSomePass(t.pc) { PassStepOnTrack(l, full, skip, st, t, c); }
    else if !AtCheckpoint(t.pc) { ScanOnTrack(l, full, skip, st, t, c); }
    else if t.shared.flag { CutOnTrack(l, full, skip, st, t, c); }
    else if t.pc == FullEntry || t.pc == PhysEntry { EntryOnTrack(l, full, skip, st, t, c); }
    else { CheckpointOnTrack(l, full, skip, st, t, c); }
  }

  lemma StepOnTrack(l: Limits, full: bool, skip: bool, st: State, t: Proto, step: Step)
    requires Inv(l, t) && OnTrack(l, full, skip, st, t) && Enabled(l, t, step) && OfThisRun(step)
    ensures OnTrack(l, full, skip, st, Next(l, t, step))
  {
    if step.RunnerStep? { RunnerOnTrack(l, full, skip, st, t, step.choice); }
    else {
      var u := Next(l, t, step);
      assert u.pc == t.pc && u.my == t.my && u.state == t.state && u.physical == t.physical && u.last == t.last;
    }
  }

  lemma {:induction false} StaysOnTrack(l: Limits, full: bool, skip: bool, st: State, t: Proto, steps: seq<Step>)
    requires Inv(l, t) && OnTrack(l, full, skip, st, t)
    requires IsRun(l, t, steps) && forall step | step in steps :: OfThisRun(step)
    ensures OnTrack(l, full, skip, st, After(l, t, steps))
    decreases steps
  {
    if steps != [] {
      StepKeepsInv(l, t, steps[0]);
      StepOnTrack(l, full, skip, st, t, steps[0]);
      StaysOnTrack(l, full, skip, st, Next(l, t, steps[0]), steps[1..]);
    }
  }

  /** In every interleaving, from any state: a full run whose physical pass has ended, be it
      failed or cut, returns only after a logical pass over as many units. Until then its
      state tells how the physical pass went, a failure before a cancel; and the state it
      ends in tells the same of the logical pass. */
  lemma LogicalPassFollows(l: Limits, s: Proto, skip: bool, steps: seq<Step>)
    requires Inv(l, s) && Enabled(l, s, StartFull(skip)) && IsRun(l, Next(l, s, StartFull(skip)), steps)
    requires forall step | step in steps :: OfThisRun(step)
    ensures var t := After(l, Next(l, s, StartFull(skip)), steps);
            && (t.physical.executor.Some? && t.pc != Idle ==>
                  var e := t.physical.executor.value;
                  t.state == if exists u :: u in e.returned && e.returned[u] == 1 then PhysicalError
                             else if t.physical.cancelled then NoneReady else PhysicalReady)
            && (t.pc == Idle ==> t.last.Some? && t.last.value.state == t.state)
            && (t.pc == Idle && t.physical.executor.Some? ==>
                  && t.last.value.logical.Some?
                  && t.last.value.logical.value.files == t.physical.executor.value.files
                  && (s.state != AllReady ==> t.last.value.logical.value.files == l.allUnits))
            && (t.pc == Idle && t.last.value.logical.Some? && !skip ==> t.physical.executor.Some?)
  {
    var begun := Next(l, s, StartFull(skip));
    StartOnTrack(l, s, StartFull(skip));
    StepKeepsInv(l, s, StartFull(skip));
    StaysOnTrack(l, true, skip, s.state, begun, steps);
    RunKeepsInv(l, begun, steps);
    EndedOnceStays(l, begun, steps);
  }

  /** How any run ends: `runFull`, with or without the physical pass, and `runPhysical`. */
  lemma RunsEndRight(l: Limits, s: Proto, start: Step, steps: seq<Step>)
    requires Inv(l, s) && !OfThisRun(start) && Enabled(l, s, start) && IsRun(l, Next(l, s, start), steps)
    requires forall step | step in steps :: OfThisRun(step)
    ensures var t, full := After(l, Next(l, s, start), steps), start.StartFull?;
            t.pc == Idle ==>
              && t.last.Some?
              && EndsRight(l, full, full && start.skipPhysical, s.state, t.last.value, t.physical)
  {
    StartOnTrack(l, s, start);
    StepKeepsInv(l, s, start);
    StaysOnTrack(l, start.StartFull?, start.StartFull? && start.skipPhysical, s.state, Next(l, s, start), steps);
  }

  // ------------------------------------------------------------------
  // What spoils the physical pass
  // ------------------------------------------------------------------

  /** A step that spoils it: a cancelling thread clears the pool while files are queued,
      or a worker's file returns 1. */
  predicate Spoils(s: Proto, step: Step) {
    s.my.pass.PhysicalPass? && s.shared.live.Some? &&
    match step
    case CancelStep(id) =>
      id in s.shared.cancellers && s.shared.cancellers[id] == Clear && s.shared.live.value.queue != {}
    case WorkerEnd(u, ret) => u in s.shared.live.value.running && ret == 1
    case _ => false
  }

  ghost predicate SomeStepSpoils(l: Limits, s: Proto, steps: seq<Step>)
    requires IsRun(l, s, steps)
    decreases steps
  {
    steps != [] && (Spoils(s, steps[0]) || SomeStepSpoils(l, Next(l, s, steps[0]), steps[1..]))
  }

  /** The physical pass of the run under way, as far as it has come. */
  function PhysicalSoFar(s: Proto): Option<Executor> {
    if s.physical.executor.Some? then s.physical.executor
    else if s.my.pass.LogicalPass? then None
    else if s.pc == Unlock || s.pc == Finish then s.my.ran
    else s.shared.live
  }

  predicate Spoiled(s: Proto) {
    PhysicalSoFar(s).Some? && Bad(PhysicalSoFar(s).value)
  }

  /** Once it has ended, the run goes on to the logical pass or is over. */
  predicate EndedOnce(s: Proto) {
    s.physical.executor.Some? ==> s.my.pass.LogicalPass? || s.pc == Reselect || s.pc == Idle
  }

  predicate Bad(e: Executor) {
    e.dropped != {} || e.Failed() != {}
  }

  lemma ReturnSpoils(e: Executor, u: nat, ret: nat)
    requires e.Partitioned() && u in e.running
    ensures Bad(e.(running := e.running - {u}, returned := e.returned[u := ret])) <==> Bad(e) || ret == 1
  {
    var e' := e.(running := e.running - {u}, returned := e.returned[u := ret]);
    assert e'.Failed() == e.Failed() + if ret == 1 then {u} else {};
  }

  /** While an executor is alive, the physical pass is the one under way or is over. */
  lemma SoFarIsLive(l: Limits, s: Proto, y: Shared)
    requires Inv(l, s) && EndedOnce(s) && s.shared.live.Some? && y.live.Some?
    ensures var t := s.(shared := y);
            && (s.my.pass.PhysicalPass? ==> PhysicalSoFar(s) == s.shared.live && PhysicalSoFar(t) == y.live)
            && (s.my.pass.LogicalPass? ==> PhysicalSoFar(t) == PhysicalSoFar(s))
  {
    assert InPass(s.pc);
  }

  lemma WorkerSpoils(l: Limits, s: Proto, step: Step)
    requires Inv(l, s) && EndedOnce(s) && WorkerEnabled(l, s.shared, step)
    ensures var t := s.(shared := NextWorker(s.shared, step)); Spoiled(t) <==> Spoiled(s) || Spoils(s, step)
  {
    SoFarIsLive(l, s, NextWorker(s.shared, step));
    if step.WorkerEnd? {
      ReturnSpoils(s.shared.live.value, step.u, step.ret);
    }
  }

  lemma CancellerSpoils(l: Limits, s: Proto, id: nat)
    requires Inv(l, s) && EndedOnce(s) && CancellerEnabled(s.shared, id)
    ensures var t := s.(shared := NextCanceller(s.shared, id)); Spoiled(t) <==> Spoiled(s) || Spoils(s, CancelStep(id))
  {
  }

  lemma RunnerSpoilsNothing(l: Limits, s: Proto, c: Choice)
    requires Inv(l, s) && EndedOnce(s) && RunnerEnabled(s)
    ensures var t := NextRunner(l, s, c); EndedOnce(t) && (Spoiled(t) <==> Spoiled(s))
  {
  }

  lemma StepSpoils(l: Limits, s: Proto, step: Step)
    requires Inv(l, s) && EndedOnce(s) && Enabled(l, s, step) && OfThisRun(step)
    ensures EndedOnce(Next(l, s, step)) && (Spoiled(Next(l, s, step)) <==> Spoiled(s) || Spoils(s, step))
  {
    match step
    case RunnerStep(c) => RunnerSpoilsNothing(l, s, c);
    case WorkerBegin(_) => WorkerSpoils(l, s, step);
    case WorkerEnd(_, _) => WorkerSpoils(l, s, step);
    case CancelStart(_) =>
    case CancelStep(id) => CancellerSpoils(l, s, id);
  }

  lemma {:induction false} SpoiledBySteps(l: Limits, s: Proto, steps: seq<Step>)
    requires Inv(l, s) && EndedOnce(s) && IsRun(l, s, steps) && forall step | step in steps :: OfThisRun(step)
    ensures Spoiled(After(l, s, steps)) <==> Spoiled(s) || SomeStepSpoils(l, s, steps)
    decreases steps
  {
    if steps != [] {
      StepKeepsInv(l, s, steps[0]);
      StepSpoils(l, s, steps[0]);
      SpoiledBySteps(l, Next(l, s, steps[0]), steps[1..]);
    }
  }

  lemma {:induction false} EndedOnceStays(l: Limits, s: Proto, steps: seq<Step>)
    requires Inv(l, s) && EndedOnce(s) && IsRun(l, s, steps) && forall step | step in steps :: OfThisRun(step)
    ensures EndedOnce(After(l, s, steps))
    decreases steps
  {
    if steps != [] {
      StepKeepsInv(l, s, steps[0]);
      StepSpoils(l, s, steps[0]);
      EndedOnceStays(l, Next(l, s, steps[0]), steps[1..]);
    }
  }

  ghost predicate Complete(e: Executor) {
    forall u: nat :: u < e.files ==> u in e.returned && e.returned[u] != 1
  }

  lemma CompleteUnlessSpoiled(e: Executor)
    requires e.Done() && e.Partitioned()
    ensures Complete(e) <==> e.dropped == {} && e.Failed() == {}
  {
    forall u | u in e.Failed() ensures u < e.files && u in e.returned && e.returned[u] == 1 {}
    forall u: nat | u in e.returned && e.returned[u] == 1 ensures u in e.Failed() {}
  }

  /** Take any run, with all that other threads do meanwhile. Its physical pass, once it
      has ended, was complete exactly if during the pass no cancelling thread cleared the
      pool while files were queued and no file returned 1. */
  lemma PhysicalCompleteExactlyWhen(l: Limits, s: Proto, start: Step, steps: seq<Step>)
    requires Inv(l, s) && !OfThisRun(start) && Enabled(l, s, start)
    requires IsRun(l, Next(l, s, start), steps) && forall step | step in steps :: OfThisRun(step)
    ensures var t := After(l, Next(l, s, start), steps);
            t.physical.executor.Some? ==>
              (Complete(t.physical.executor.value) <==> !SomeStepSpoils(l, Next(l, s, start), steps))
  {
    var begun := Next(l, s, start);
    StepKeepsInv(l, s, start);
    SpoiledBySteps(l, begun, steps);
    RunKeepsInv(l, begun, steps);
    var t := After(l, begun, steps);
    if t.physical.executor.Some? {
      CompleteUnlessSpoiled(t.physical.executor.value);
    }
  }

  /** So if AllReady on return is to mean that both passes were complete, that is what
      must not happen, and nothing else. */
  lemma ReadyAndParsedExactlyWhen(l: Limits, s: Proto, start: Step, steps: seq<Step>)
    requires Inv(l, s) && start == StartFull(false) && Enabled(l, s, start)
    requires IsRun(l, Next(l, s, start), steps) && forall step | step in steps :: OfThisRun(step)
    ensures var t := After(l, Next(l, s, start), steps);
            t.pc == Idle && t.last.Some? && t.last.value.logical.Some? && t.last.value.state == AllReady
            && t.physical.executor.Some? ==>
              (Complete(t.physical.executor.value) && Complete(t.last.value.logical.value) <==>
                 !SomeStepSpoils(l, Next(l, s, start), steps))
  {
    PhysicalCompleteExactlyWhen(l, s, start, steps);
    StepKeepsInv(l, s, start);
    RunKeepsInv(l, Next(l, s, start), steps);
    var t := After(l, Next(l, s, start), steps);
    if t.last.Some? && t.last.value.logical.Some? && t.last.value.state == AllReady {
      CompleteUnlessSpoiled(t.last.value.logical.value);
    }
  }

  // ------------------------------------------------------------------
  // A physical pass that is cut
  // ------------------------------------------------------------------

  const ONE_UNIT := Limits(1, 1)

  /** steps lead from the start to s. */
  ghost predicate Leads(steps: seq<Step>, s: Proto) {
    IsRun(ONE_UNIT, Start(NoneReady), steps) && After(ONE_UNIT, Start(NoneReady), steps) == s
  }

  lemma {:induction false} Append(l: Limits, s: Proto, steps: seq<Step>, step: Step)
    requires IsRun(l, s, steps) && Enabled(l, After(l, s, steps), step)
    ensures IsRun(l, s, steps + [step]) && After(l, s, steps + [step]) == Next(l, After(l, s, steps), step)
    decreases steps
  {
    if steps == [] {
      assert (steps + [step])[1..] == [];
    } else {
      Append(l, Next(l, s, steps[0]), steps[1..], step);
      assert (steps + [step])[1..] == steps[1..] + [step];
    }
  }

  lemma Go(steps: seq<Step>, s: Proto, step: Step) returns (steps': seq<Step>)
    requires Leads(steps, s) && Enabled(ONE_UNIT, s, step)
    ensures Leads(steps', Next(ONE_UNIT, s, step))
  {
    Append(ONE_UNIT, Start(NoneReady), steps, step);
    steps' := steps + [step];
  }

  lemma RunnerGoes(steps: seq<Step>, s: Proto) returns (steps': seq<Step>)
    requires Leads(steps, s) && RunnerEnabled(s)
    ensures Leads(steps', NextRunner(ONE_UNIT, s, CHANGED))
  {
    steps' := Go(steps, s, RunnerStep(CHANGED));
  }

  const CHANGED := Choice(true, 0, true)

  function Ran(s: Proto): Proto
    requires RunnerEnabled(s)
  {
    NextRunner(ONE_UNIT, s, CHANGED)
  }

  /** A full run from NoneReady comes to its physical pass, with one unit to parse. */
  lemma ComesToPhysicalPass() returns (steps: seq<Step>, s: Proto)
    ensures Leads(steps, s) && s.pc == Exec && s.my.full && s.my.pass.PhysicalPass? && s.my.units == 1
    ensures s.shared == Shared(Some(NewExecutor(1)), true, false, Nobody, map[])
    ensures s.my.oldState == NoneReady && s.state == NoneReady
  {
    var t := Next(ONE_UNIT, Start(NoneReady), StartFull(false));
    steps := Go([], Start(NoneReady), StartFull(false));
    s := t;
    for i := 0 to 9
      invariant Leads(steps, s) && s.my.full && !s.my.skipPhysical && s.my.pass.PhysicalPass? && s.state == NoneReady
      invariant s.shared == if i < 9 then Shared(None, false, false, Nobody, map[])
          else Shared(Some(NewExecutor(1)), true, false, Nobody, map[])
      invariant s.pc == [FullEntry, ScanCheck, Scan, SetupCheck, Setup, StateCheck, SetState,
                         PhysEntry, Create, Exec][i]
      invariant i >= 1 ==> s.my.oldState == NoneReady && !s.my.doIncremental
      invariant i >= 5 ==> s.my.units == 1
      invariant i >= 7 ==> s.my.scanned
    {
      steps := RunnerGoes(steps, s);
      s := Ran(s);
    }
  }

  /** It is cancelled when the unit is queued. */
  lemma PhysicalPassIsCut() returns (steps: seq<Step>, s: Proto)
    ensures Leads(steps, s) && s.pc == Reselect && s.my.full && s.my.pass.PhysicalPass? && s.my.oldState == NoneReady
    ensures s.shared == Shared(None, false, false, Nobody, map[]) && s.state == NoneReady
    ensures s.physical.executor.Some? && 0 in s.physical.executor.value.dropped
  {
    steps, s := ComesToPhysicalPass();
    steps := RunnerGoes(steps, s);
    s := Ran(s);
    assert {} + {0} == {0};
    steps := Go(steps, s, CancelStart(0));
    s := Next(ONE_UNIT, s, CancelStart(0));
    for i := 0 to 4
      invariant Leads(steps, s) && s.pc == Exec && s.my.full && s.my.pass.PhysicalPass? && s.my.oldState == NoneReady
      invariant s.state == NoneReady
      invariant i < 4 ==> s.shared == Shared(Some(Executor(1, 1, {0}, {}, map[], {})), true, i >= 2,
                                             if i == 0 then Nobody else Canceller(0),
                                             map[0 := [Acquire, Flag, Read, Clear][i]])
      invariant i == 4 ==> s.shared == Shared(Some(Executor(1, 1, {}, {}, map[], {0})), true, true, Nobody, map[])
    {
      steps := Go(steps, s, CancelStep(0));
      s := Next(ONE_UNIT, s, CancelStep(0));
    }
    steps, s := PassEnds(steps, s);
    steps := RunnerGoes(steps, s);
    s := Ran(s);
  }

  /** From an executor that is done, the runner comes to the end of the pass. */
  lemma PassEnds(steps: seq<Step>, s: Proto) returns (steps': seq<Step>, s': Proto)
    requires Leads(steps, s) && s.pc == Exec && s.shared.live.Some? && s.shared.live.value.Done()
    requires s.shared.mutex == Nobody && s.shared.cancellers == map[]
    ensures Leads(steps', s') && s'.pc == Finish && s'.state == s.state
    ensures s'.shared == Shared(None, false, false, Nobody, map[])
    ensures s'.physical == s.physical
    ensures s'.my == s.my.(ran := s.shared.live, passError := s.shared.live.value.Failed() != {},
                           passCancelled := s.shared.flag)
  {
    steps' := RunnerGoes(steps, s);
    s' := Ran(s);
    assert s' == s.(pc := Lock, my := s.my.(passError := s.shared.live.value.Failed() != {}));
    steps' := RunnerGoes(steps', s');
    s' := Ran(s');
    steps' := RunnerGoes(steps', s');
    s' := Ran(s');
    assert s'.pc == Unlock && s'.my.ran == s.shared.live && s'.shared.flag == s.shared.flag;
    steps' := RunnerGoes(steps', s');
    s' := Ran(s');
  }

  /** The logical pass parses the unit, and the run ends in AllReady, although the
      physical pass dropped the unit. The next run is incremental; for what is in the store
      see MissedChanges.CutPassExactlyWhen. */
  lemma CutPassEndsReady() returns (steps: seq<Step>, s: Proto)
    ensures Leads(steps, s) && s.pc == Idle && s.state == AllReady && s.last.Some? && s.last.value.ok
    ensures s.last.value.physical.executor.Some? && 0 in s.last.value.physical.executor.value.dropped
  {
    steps, s := PhysicalPassIsCut();
    steps := RunnerGoes(steps, s);
    s := Ran(s);
    steps := RunnerGoes(steps, s);
    s := Ran(s);
    steps := RunnerGoes(steps, s);
    s := Ran(s);
    assert {} + {0} == {0};
    assert s.shared == Shared(Some(Executor(1, 1, {0}, {}, map[], {})), true, false, Nobody, map[]);
    steps := Go(steps, s, WorkerBegin(0));
    s := Next(ONE_UNIT, s, WorkerBegin(0));
    steps := Go(steps, s, WorkerEnd(0, 0));
    s := Next(ONE_UNIT, s, WorkerEnd(0, 0));
    assert s.shared.live.value == Executor(1, 1, {}, {}, map[0 := 0], {});
    assert s.shared.live.value.Failed() == {};
    steps, s := PassEnds(steps, s);
    steps := RunnerGoes(steps, s);
    s := Ran(s);
  }
}
