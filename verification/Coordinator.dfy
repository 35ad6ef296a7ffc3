/**
 * pipeline_coordinator.rs: the handlers, one atomic method each, over the shared tables and the
 * pending-request map. Every method is proved to move each run exactly as `RunMachine` says.
 */
module Coordinator {
  import opened Basics
  import opened Stages
  import opened RunMachine
  import opened RunInvariants
  import opened Tables
  import opened TaskDb
  import opened MemoryDb

  datatype PendingRequest = PendingRequest(run: nat, task: nat, kind: Kind)

  function PendOf(pending: map<nat, PendingRequest>, r: nat): map<nat, Request> {
    map q | q in pending && pending[q].run == r :: Request(pending[q].kind, pending[q].task)
  }

  ghost function TrailOf(trails: map<nat, seq<Effect>>, r: nat): seq<Effect> {
    if r in trails then trails[r] else []
  }

  lemma PendInsert(pending: map<nat, PendingRequest>, q: nat, p: PendingRequest, r: nat)
    requires q !in pending
    ensures PendOf(pending[q := p], r) ==
            if r == p.run then PendOf(pending, r)[q := Request(p.kind, p.task)] else PendOf(pending, r)
  {
  }

  lemma PendRemove(pending: map<nat, PendingRequest>, q: nat, r: nat)
    ensures PendOf(pending - {q}, r) == PendOf(pending, r) - {q}
  {
  }

  function WithSubtasks(tasks: seq<Task>, r: nat, run: nat, parent: nat, count: nat, newId: nat): seq<Task> {
    if r == run then tasks + Subtasks(run, parent, count, newId) else tasks
  }

  ghost function Settled(v: View, run: nat, m: StageResult, delivered: bool, newId: nat, now: nat): View {
    match m.status
    case Failed => OnFailed(v, delivered, newId)
    case Completed => OnCompleted(v, run, m, newId, now)
    case _ => v
  }

  lemma NoSubtasks(tasks: seq<Task>, r: nat, run: nat, parent: nat, newId: nat)
    ensures WithSubtasks(tasks, r, run, parent, 0, newId) == tasks
  {
  }

  lemma OneMoreSubtask(tasks: seq<Task>, r: nat, run: nat, parent: nat, count: nat, newId: nat)
    ensures WithSubtasks(tasks, r, run, parent, count + 1, newId) ==
            if r == run
            then WithSubtasks(tasks, r, run, parent, count, newId) + [Task(newId + count, run, parent, Pending, None)]
            else WithSubtasks(tasks, r, run, parent, count, newId)
  {
    assert Subtasks(run, parent, count + 1, newId) ==
           Subtasks(run, parent, count, newId) + [Task(newId + count, run, parent, Pending, None)];
  }

  lemma PendUndo(pend: map<nat, Request>, q: nat, p: Request)
    requires q !in pend
    ensures pend[q := p] - {q} == pend && pend - {q} == pend
  {
  }

  class PipelineCoordinator {
    const db: Database
    var pending: map<nat, PendingRequest>
    ghost var trails: map<nat, seq<Effect>>
    ghost var clock: nat

    /** One run, as RunMachine sees it. */
    ghost function ViewOf(r: nat): View
      reads this, db
    {
      View(RowsOf(db.runs, r), TasksOf(db.tasks, r), PendOf(pending, r), TrailOf(trails, r))
    }

    ghost predicate Valid()
      reads this, db
    {
      && db.Valid()
      && (forall q :: q in pending ==> q < db.nextId && pending[q].task < db.nextId)
      && (forall q :: q in pending && pending[q].kind == ForRecovery ==>
                        Home(db.tasks, pending[q].task, pending[q].run))
      && Dated(db.runs, clock)
    }

    /** Every run is where some allowed history leads, and no run that was not started yet has left
        a trace. */
    ghost predicate Sound()
      reads this, db
    {
      && (forall r :: r != 0 ==> Reached(r, ViewOf(r)))
      && (forall r :: r >= db.nextId ==> ViewOf(r) == EMPTY)
    }

    constructor ()
      ensures Valid() && MemoriesOk(db) && Sound() && fresh(db)
      ensures forall r :: ViewOf(r) == EMPTY
    {
      hide RowsSorted, TasksSorted, Home;
      db := new Database();
      pending, trails, clock := map[], map[], 0;
      new;
      hide Reached;
      forall r { EmptyReached(r); }
    }

    ghost method Note(run: nat, e: Effect)
      modifies this`trails
      ensures forall r :: TrailOf(trails, r) ==
                          if r == run then TrailOf(old(trails), r) + [e] else TrailOf(old(trails), r)
    {
      trails := trails[run := TrailOf(trails, run) + [e]];
    }

    /** What a valid state says about one view. */
    lemma ViewFacts(r: nat)
      requires Valid()
      ensures FreshFor(ViewOf(r), db.nextId)
      ensures forall now :: clock <= now ==> NotBefore(ViewOf(r), now)
    {
      var v := ViewOf(r);
      forall x | x in v.rows ensures x.id < db.nextId && x.updatedAt <= clock {
        var i :| 0 <= i < |v.rows| && v.rows[i] == x;
        RowsOfMembers(db.runs, r, i);
      }
      forall x | x in v.tasks ensures x.id < db.nextId {
        var i :| 0 <= i < |v.tasks| && v.tasks[i] == x;
        TasksOfMembers(db.tasks, r, i);
      }
    }

    /** An event that moves each run as the run machine says, or not at all, keeps every run sound. */
    twostate lemma KeepsSound(e: Event)
      requires old(Sound())
      requires forall r :: r != 0 && ViewOf(r) != old(ViewOf(r)) ==>
                             Allowed(old(ViewOf(r)), r, e) && ViewOf(r) == Step(old(ViewOf(r)), r, e)
      requires forall r :: r >= db.nextId ==> ViewOf(r) == EMPTY
      ensures Sound()
    {
      hide Allowed, Step, Reached;
      forall r | r != 0 ensures Reached(r, ViewOf(r)) {
        assert old(Reached(r, ViewOf(r)));
        if ViewOf(r) != old(ViewOf(r)) { ReachedStep(r, old(ViewOf(r)), e); }
      }
    }

    // ── start_run ────────────────────────────────────────────────────────────────────────────

    method StartRun(input: string, now: nat) returns (run: nat)
      requires Valid() && clock <= now
      modifies this`trails, this`clock, db`runs, db`tasks, db`nextId
      ensures Valid() && run == old(db.nextId) < db.nextId
      ensures forall r :: ViewOf(r) ==
                          if r == run then Began(old(ViewOf(r)), run, input, run + 1, now)
                          else old(ViewOf(r))
    {
      assert Dated(db.runs, now);
      hide RowsOf, TasksOf, PendOf, RowsSorted, TasksSorted, Dated, Home;
      clock := now;
      run := db.FreshId();
      var row := db.CreatePipelineStage(run, Learning, "", input, now);
      var task := db.CreateTask(run, 0, InProgress, Some(Learning));
      Note(run, Next(Learning, "", input, 0, now));
    }

    // ── on_stage_result ──────────────────────────────────────────────────────────────────────

    /** stages.iter().find(...) */
    method FindRunningRow(stages: seq<Row>, stage: Stage) returns (found: Option<Row>)
      ensures found == FindRunning(stages, stage)
    {
      found := None;
      var i := 0;
      while i < |stages| && found.None?
        invariant 0 <= i <= |stages|
        invariant found == FindRunning(stages[..i], stage)
        invariant found.Some? ==> FindRunning(stages, stage) == found
      {
        assert Front(stages[..i + 1]) == stages[..i];
        if stages[i].stage == stage && stages[i].status == Running {
          found := Some(stages[i]);
          FirstStaysFirst(stages, stage, i + 1);
        }
        i := i + 1;
      }
      assert stages[..|stages|] == stages;
    }

    /** create_subtasks: one task per entry, pending, unstaged, under the parent. */
    method CreateSubtasks(parent: nat, count: nat, run: nat)
      requires Valid()
      modifies db`tasks, db`nextId
      ensures Valid() && db.nextId == old(db.nextId) + count
      ensures forall r :: TasksOf(db.tasks, r) ==
                          WithSubtasks(TasksOf(old(db.tasks), r), r, run, parent, count, old(db.nextId))
      ensures forall x :: x in old(db.tasks) ==> x in db.tasks
      ensures forall id: nat, r: nat :: id < old(db.nextId) && Home(old(db.tasks), id, r) ==> Home(db.tasks, id, r)
    {
      hide RowsOf, TasksOf, RowsSorted, TasksSorted, Dated, PendOf, Subtasks;
      forall r { NoSubtasks(TasksOf(db.tasks, r), r, run, parent, db.nextId); }
      for i := 0 to count
        invariant db.Valid() && db.nextId == old(db.nextId) + i
        invariant forall r :: TasksOf(db.tasks, r) ==
                              WithSubtasks(TasksOf(old(db.tasks), r), r, run, parent, i, old(db.nextId))
        invariant forall x :: x in old(db.tasks) ==> x in db.tasks
        invariant forall id: nat, r: nat :: id < old(db.nextId) && Home(old(db.tasks), id, r) ==> Home(db.tasks, id, r)
      {
        hide WithSubtasks, Home;
        var t := db.CreateTask(run, parent, Pending, None);
        forall r { OneMoreSubtask(TasksOf(old(db.tasks), r), r, run, parent, i, old(db.nextId)); }
      }
    }

    /** update_task, if there is a task. */
    method TellTask(task: Option<Task>, status: Option<TaskStatus>, stage: Option<Stage>)
      requires db.Valid()
      modifies db`tasks
      ensures db.Valid() && db.tasks == SetFound(old(db.tasks), task, status, stage)
      ensures forall i: nat, r: nat :: Home(old(db.tasks), i, r) ==> Home(db.tasks, i, r)
      ensures forall r :: TasksOf(db.tasks, r) == SetFound(TasksOf(old(db.tasks), r), task, status, stage)
      ensures task.Some? ==>
                forall x, r :: x in old(db.tasks) && x.id == task.value.id && x.runId != r ==>
                                 TasksOf(db.tasks, r) == TasksOf(old(db.tasks), r)
      ensures task.Some? && task.value in old(db.tasks) ==> Edited(task.value, status, stage) in db.tasks
    {
      if task.Some? {
        db.UpdateTask(task.value.id, status, stage);
      }
    }

    /** abort_pipeline: the run id is not used, only the task is told. */
    method AbortPipeline(task: Option<Task>)
      requires db.Valid()
      modifies db`tasks
      ensures db.Valid() && db.tasks == SetFound(old(db.tasks), task, Some(Broken), None)
      ensures forall i: nat, r: nat :: Home(old(db.tasks), i, r) ==> Home(db.tasks, i, r)
      ensures forall r :: TasksOf(db.tasks, r) == SetFound(TasksOf(old(db.tasks), r), task, Some(Broken), None)
      ensures task.Some? ==>
                forall x, r :: x in old(db.tasks) && x.id == task.value.id && x.runId != r ==>
                                 TasksOf(db.tasks, r) == TasksOf(old(db.tasks), r)
    {
      TellTask(task, Some(Broken), None);
    }

    /** Registers a request under a new id. */
    method Await(run: nat, task: nat, kind: Kind) returns (request: nat)
      requires Valid() && task < db.nextId && (kind == ForRecovery ==> Home(db.tasks, task, run))
      modifies this`pending, db`nextId
      ensures Valid() && request == old(db.nextId) && request !in old(pending) && db.nextId == old(db.nextId) + 1
      ensures pending == old(pending)[request := PendingRequest(run, task, kind)]
      ensures forall r :: PendOf(pending, r) ==
                          if r == run then PendOf(old(pending), r)[request := Request(kind, task)]
                          else PendOf(old(pending), r)
    {
      hide RowsOf, TasksOf, RowsSorted, TasksSorted, Dated, Home;
      request := db.FreshId();
      forall r { PendInsert(pending, request, PendingRequest(run, task, kind), r); }
      hide PendOf;
      pending := pending[request := PendingRequest(run, task, kind)];
    }

    /** pending_requests.remove */
    method Forget(request: nat)
      requires Valid()
      modifies this`pending
      ensures Valid() && pending == old(pending) - {request}
      ensures forall r :: PendOf(pending, r) == PendOf(old(pending), r) - {request}
    {
      hide RowsOf, TasksOf, RowsSorted, TasksSorted, Dated, Home;
      forall r { PendRemove(pending, request, r); }
      hide PendOf;
      pending := pending - {request};
    }

    /** The failed branch of on_stage_result. */
    method FailStage(run: nat, delivered: bool)
      requires Valid()
      modifies this`pending, this`trails, db`tasks, db`nextId
      ensures Valid() && db.nextId >= old(db.nextId)
      ensures forall r :: ViewOf(r) ==
                          if r == run then OnFailed(old(ViewOf(r)), delivered, old(db.nextId))
                          else old(ViewOf(r))
    {
      hide RowsOf, TasksOf, RowsSorted, TasksSorted, SetTask, Dated, Home, PendOf;
      var task := db.GetTaskByRunId(run);
      TellTask(task, Some(Recovering), None);
      forall r { NotAwaited(r, db.nextId); }
      var request := Await(run, IdOf(task), ForRecovery);
      if delivered {
        Note(run, Asked(request));
      } else {
        forall r { PendUndo(PendOf(old(pending), r), request, Request(ForRecovery, IdOf(task))); }
        Forget(request);
        AbortPipeline(task);
      }
    }

    lemma NotAwaited(r: nat, id: nat)
      requires Valid() && db.nextId <= id
      ensures id !in PendOf(pending, r)
    {
    }

    /** Creates the next row of a run, tells the task and emits pipeline:next. */
    method AdvanceRun(run: nat, task: Option<Task>, status: Option<TaskStatus>, next: Stage,
                      artifact: string, stored: string, sent: string, now: nat)
      requires Valid() && clock == now
      modifies this`trails, db`runs, db`tasks, db`nextId
      ensures Valid() && db.nextId >= old(db.nextId)
      ensures forall r :: ViewOf(r) ==
                          if r == run
                          then Advanced(old(ViewOf(r)), run, task, status, next, artifact, stored, sent,
                                        old(db.nextId), now)
                          else old(ViewOf(r)).(tasks := SetFound(TasksOf(old(db.tasks), r), task, status, Some(next)))
      ensures task.Some? ==>
                forall x, r :: x in old(db.tasks) && x.id == task.value.id && x.runId != r && r != run ==>
                                 ViewOf(r) == old(ViewOf(r))
      ensures task.None? ==> forall r :: r != run ==> ViewOf(r) == old(ViewOf(r))
    {
      hide RowsOf, TasksOf, RowsSorted, TasksSorted, SetTask, Dated, Home, PendOf;
      var row := db.CreatePipelineStage(run, next, artifact, stored, now);
      TellTask(task, status, Some(next));
      Note(run, Next(next, artifact, sent, 0, now));
    }

    /** The completed branch of on_stage_result. */
    method CompleteStage(run: nat, m: StageResult, now: nat)
      requires Valid() && clock == now
      modifies this`trails, db`runs, db`tasks, db`nextId
      ensures Valid() && db.nextId >= old(db.nextId)
      ensures forall r :: ViewOf(r) ==
                          if r == run then OnCompleted(old(ViewOf(r)), run, m, old(db.nextId), now)
                          else old(ViewOf(r))
    {
      hide RowsOf, TasksOf, RowsSorted, TasksSorted, SetTask, Dated, Home, PendOf, Subtasks;
      var task := db.GetTaskByRunId(run);
      if m.stage == Evaluation && task.Some? {
        CreateSubtasks(task.value.id, m.subtasks, run);
      }
      assert !(m.stage == Evaluation && task.Some?) ==> Subtasks(run, IdOf(task), 0, old(db.nextId)) == [];
      match NextStage(m.stage) {
        case Some(next) => AdvanceRun(run, task, None, next, m.artifact, m.output, m.output, now);
        case None => TellTask(task, Some(Done), None);
      }
    }

    /** Also returns, for specification, the memory extracted from the result. */
    method OnStageResult(run: nat, m: StageResult, pretty: string, delivered: bool, now: nat)
      returns (ghost remembered: Option<Memory>)
      requires Valid() && MemoriesOk(db) && clock <= now
      modifies this, db
      ensures Valid() && db.nextId >= old(db.nextId)
      ensures forall r :: ViewOf(r) ==
                          if r == run then OnResult(old(ViewOf(r)), run, m, delivered, old(db.nextId), now)
                          else old(ViewOf(r))
      ensures MemoriesOk(db)
      ensures remembered.Some? <==>
              FindRunning(RowsOf(old(db.runs), run), m.stage).Some? && (m.status == Failed || m.status == Completed)
      ensures remembered.None? ==> StoreOf(db) == old(StoreOf(db))
      ensures remembered.Some? ==>
                && remembered.value.key == PipelineKey(run, m.stage, m.artifact)
                && Extracted(old(StoreOf(db)), StoreOf(db), remembered.value, Abstract(m.stage, m.agent, m.artifact),
                             Shortened(pretty), m.output, IdIfAny(Newest(TasksOf(old(db.tasks), run))))
    {
      hide RowsOf, TasksOf, RowsSorted, TasksSorted, PatchRow, PendOf;
      hide Home, TierMap, MemoriesOk, Abstract, Shortened, Extracted;
      remembered := None;
      clock := now;
      var stages := db.GetPipelineRunStages(run);
      var current := FindRunningRow(stages, m.stage);
      if current.None? { return; }
      db.UpdatePipelineStage(current.value, m.status, m.agent, Some(m.output), m.error, now);
      Note(run, Accepted(m));
      hide OnFailed, OnCompleted, StoreOf, IdIfAny;
      remembered := SettleStage(run, m, pretty, delivered, now);
    }

    /** What follows the update of the row: nothing for a status other than failed and completed. */
    method SettleStage(run: nat, m: StageResult, pretty: string, delivered: bool, now: nat)
      returns (ghost remembered: Option<Memory>)
      requires Valid() && MemoriesOk(db) && clock == now
      modifies this`pending, this`trails, db
      ensures Valid() && db.nextId >= old(db.nextId) && MemoriesOk(db)
      ensures forall r :: ViewOf(r) ==
                          if r == run then Settled(old(ViewOf(r)), run, m, delivered, old(db.nextId), now)
                          else old(ViewOf(r))
      ensures remembered.Some? <==> m.status == Failed || m.status == Completed
      ensures remembered.None? ==> StoreOf(db) == old(StoreOf(db))
      ensures remembered.Some? ==>
                && remembered.value.key == PipelineKey(run, m.stage, m.artifact)
                && Extracted(old(StoreOf(db)), StoreOf(db), remembered.value, Abstract(m.stage, m.agent, m.artifact),
                             Shortened(pretty), m.output, IdIfAny(Newest(TasksOf(old(db.tasks), run))))
    {
      hide RowsOf, TasksOf, PendOf, Home, TierMap, MemoriesOk;
      hide Abstract, Shortened, Extracted, IdIfAny, OnFailed, OnCompleted, Valid;
      remembered := None;
      if m.status == Failed || m.status == Completed {
        remembered := Remember(run, m, pretty);
      }
      if m.status == Failed {
        FailStage(run, delivered);
      } else if m.status == Completed {
        CompleteStage(run, m, now);
      }
    }

    /** extract_stage_memory, for the newest task of the run. */
    method Remember(run: nat, m: StageResult, pretty: string) returns (ghost remembered: Option<Memory>)
      requires Valid() && MemoriesOk(db)
      modifies db`memories, db`tiers, db`bindings, db`nextMemoryId
      ensures Valid() && (forall r :: ViewOf(r) == old(ViewOf(r))) && MemoriesOk(db)
      ensures remembered.Some? && remembered.value.key == PipelineKey(run, m.stage, m.artifact)
      ensures Extracted(old(StoreOf(db)), StoreOf(db), remembered.value, Abstract(m.stage, m.agent, m.artifact),
                        Shortened(pretty), m.output, IdIfAny(Newest(TasksOf(db.tasks, run))))
    {
      hide RowsOf, TasksOf, RowsSorted, TasksSorted, PendOf, Home, TierMap, MemoriesOk, Abstract, Shortened, Extracted;
      var task := db.GetTaskByRunId(run);
      var memory := ExtractStageMemory(db, run, m.stage, m.agent, m.artifact, m.output, pretty, IdIfAny(task));
      remembered := Some(memory);
    }

    // ── on_recovery_response ─────────────────────────────────────────────────────────────────

    /** stages.iter().rev().find(...) */
    method FindNewestRow(stages: seq<Row>, stage: Stage) returns (found: Option<Row>)
      ensures found == NewestOf(stages, stage)
    {
      found := None;
      var i := |stages|;
      assert stages[..i] == stages;
      while i > 0 && found.None?
        invariant 0 <= i <= |stages|
        invariant found.None? ==> NewestOf(stages, stage) == NewestOf(stages[..i], stage)
        invariant found.Some? ==> found == NewestOf(stages, stage)
      {
        i := i - 1;
        assert Front(stages[..i + 1]) == stages[..i];
        if stages[i].stage == stage {
          found := Some(stages[i]);
        }
      }
    }

    /** The row of a run that a retry reopens, or none. */
    method RowToRetry(run: nat, stage: Option<Stage>) returns (row: Option<Row>)
      requires Valid()
      ensures row == if stage.None? then None else NewestOf(RowsOf(db.runs, run), stage.value)
      ensures row.Some? ==> row.value in db.runs && row.value.runId == run
    {
      var stages := db.GetPipelineRunStages(run);
      row := None;
      if stage.Some? {
        row := FindNewestRow(stages, stage.value);
      }
    }

    method RetriesOf(run: nat, stage: Option<Stage>) returns (count: nat)
      requires Valid()
      ensures count == RetryCountOf(RowsOf(db.runs, run), stage)
    {
      count := 0;
      if stage.Some? {
        count := db.GetStageRetryCount(run, stage.value);
      }
    }

    /** The retry branch. */
    method RetryStage(a: Advice, task: Option<Task>, now: nat)
      requires Valid() && clock == now
      modifies this`trails, db`runs, db`tasks
      ensures Valid() && db.nextId >= old(db.nextId)
      ensures forall r :: ViewOf(r) ==
                          Enact(old(ViewOf(r)), r, a, Decide(RowsOf(old(db.runs), a.run), task, Retry), task,
                                old(db.nextId), now)
    {
      hide RowsOf, TasksOf, RowsSorted, TasksSorted, SetTask, PatchRow, Dated, Home, PendOf, NewestOf, RetryCountOf;
      var retries := RetriesOf(a.run, StageOf(task));
      if retries >= MAX_STAGE_RETRIES {
        AbortPipeline(task);
        return;
      }
      var row := RowToRetry(a.run, StageOf(task));
      if row.Some? {
        db.RetryPipelineStage(row.value, now);
        TellTask(task, Some(InProgress), None);
        Note(a.run, Next(row.value.stage, row.value.artifact, row.value.input, row.value.retryCount + 1, now));
      }
    }

    /** The decompose branch. */
    method DecomposeTask(a: Advice, task: Option<Task>, ghost now: nat)
      requires Valid()
      modifies db`tasks, db`nextId
      ensures Valid() && db.nextId >= old(db.nextId)
      ensures forall r :: ViewOf(r) == Enact(old(ViewOf(r)), r, a, Divide, task, old(db.nextId), now)
    {
      hide RowsOf, TasksOf, RowsSorted, TasksSorted, SetTask, Dated, Home, PendOf, Subtasks;
      if task.Some? {
        CreateSubtasks(task.value.id, a.subtasks, a.run);
        TellTask(task, Some(Decomposed), None);
      }
    }

    /** The skip branch. */
    method SkipStage(a: Advice, task: Option<Task>, now: nat)
      requires Valid() && clock == now
      modifies this`trails, db`runs, db`tasks, db`nextId
      ensures Valid() && db.nextId >= old(db.nextId)
      ensures forall r :: ViewOf(r) ==
                          Enact(old(ViewOf(r)), r, a, Decide(RowsOf(old(db.runs), a.run), task, Skip), task,
                                old(db.nextId), now)
    {
      hide RowsOf, TasksOf, RowsSorted, TasksSorted, SetTask, Dated, Home, PendOf, Advanced;
      var stage := StageOf(task);
      if stage == Some(Evaluation) || stage == Some(SkillManage) {
        match NextStage(stage.value) {
          case Some(next) => AdvanceRun(a.run, task, Some(InProgress), next, "", a.params, "{}", now);
          case None => TellTask(task, Some(Done), None);
        }
      } else {
        AbortPipeline(task);
      }
    }

    /** What a recovery response finds in the tables. */
    ghost function ContextOf(a: Advice): Context
      reads this, db
    {
      Context(a.request in pending, FindTask(db.tasks, a.task), RowsOf(db.runs, a.run))
    }

    /** The response as an event of any run. */
    ghost function Heard(a: Advice, now: nat): Event
      reads this, db
    {
      Recover(a, ContextOf(a), db.nextId, now)
    }

    /** A recovery response, whatever it answers and names, is one event of every run. */
    method OnRecoveryResponse(a: Advice, now: nat)
      requires Valid() && clock <= now
      modifies this, db`runs, db`tasks, db`nextId
      ensures Valid() && db.nextId >= old(db.nextId)
      ensures forall r :: ViewOf(r) == Step(old(ViewOf(r)), r, old(Heard(a, now)))
    {
      hide RowsOf, TasksOf, RowsSorted, TasksSorted, SetTask, Home, PendOf, FindTask;
      clock := now;
      if a.request !in pending { return; }
      Forget(a.request);
      var task := db.GetTask(a.task);
      match a.action {
        case Retry => hide Enact; RetryStage(a, task, now);
        case Decompose => hide Enact; DecomposeTask(a, task, now);
        case Skip => hide Enact; SkipStage(a, task, now);
        case Abort => AbortPipeline(task);
      }
    }

    /** Every run sees what the tables hold. */
    lemma SeesContext(r: nat, a: Advice)
      requires Valid()
      ensures Sees(ViewOf(r), r, a, ContextOf(a), db.nextId)
    {
      FindInRun(db.tasks, db.nextId, a.task, r);
      hide RowsOf, TasksOf, RowsSorted, Home;
    }

    /** A response to a request of the run it names, whose task, if there is one, is of that run too, moves
        that run as if there were no other, and leaves every other run alone. */
    lemma OwnAdvice(r: nat, a: Advice, now: nat)
      requires Valid() && a.request in pending && pending[a.request].run == a.run && Home(db.tasks, a.task, a.run)
      ensures r == a.run ==> ContextOf(a) == OwnContext(ViewOf(r), a)
      ensures r != a.run ==> Step(ViewOf(r), r, Heard(a, now)) == ViewOf(r)
    {
      var v, task := ViewOf(r), FindTask(db.tasks, a.task);
      if task.Some? {
        var i :| 0 <= i < |db.tasks| && db.tasks[i] == task.value;
        assert task.value.runId == a.run;
      }
      if r == a.run {
        FindInRun(db.tasks, db.nextId, a.task, r);
      } else {
        assert v.pend - {a.request} == v.pend;
        assert v.tasks + [] == v.tasks;
        hide RowsOf, TasksOf, PendOf, FindTask, RowsSorted, Home;
        ElsewhereFound(r, task);
        hide SetTask, SetFound, Decide;
      }
    }

    /** A run is not empty once it has a task. */
    lemma TaskOfRun(task: Task)
      requires task in db.tasks
      ensures ViewOf(task.runId) != EMPTY
    {
      TaskSeen(db.tasks, task);
    }

    lemma ElsewhereFound(r: nat, task: Option<Task>)
      requires Valid() && (task.Some? ==> task.value in db.tasks && task.value.runId != r)
      ensures forall s, g :: SetFound(TasksOf(db.tasks, r), task, s, g) == TasksOf(db.tasks, r)
    {
      if task.Some? {
        forall s, g { SetElsewhere(db.tasks, db.nextId, task.value, s, g, r); }
      }
    }

    // ── request_decomposition and on_decompose_result ────────────────────────────────────────

    /** A request that cannot be emitted is reported, and yet it stays pending. */
    method RequestDecomposition(task: Task, delivered: bool) returns (ok: bool)
      requires Valid() && task in db.tasks
      modifies this`pending, db`nextId
      ensures Valid() && db.nextId == old(db.nextId) + 1 && ok == delivered
      ensures forall r :: ViewOf(r) ==
                          if r == task.runId then Step(old(ViewOf(r)), r, Ask(task.id, old(db.nextId)))
                          else old(ViewOf(r))
    {
      hide RowsOf, TasksOf, PendOf;
      var request := Await(task.runId, task.id, ForDecompose);
      ok := delivered;
    }

    /** The request is consumed, then the task named by the message is looked up wherever it is. */
    method OnDecomposeResult(request: nat, taskId: nat, agreed: bool, count: nat)
      requires Valid()
      modifies this`pending, db`tasks, db`nextId
      ensures Valid() && db.nextId >= old(db.nextId)
      ensures request !in old(pending) ==> forall r :: ViewOf(r) == old(ViewOf(r))
      ensures request in old(pending) ==>
                forall r :: ViewOf(r) ==
                            Step(old(ViewOf(r)), r, Event.Split(request, taskId, agreed, count, old(db.nextId)))
    {
      hide RowsOf, TasksOf, SetTask, PendOf, FindTask, Subtasks, Home;
      if request !in pending { return; }
      forall r { FindInRun(db.tasks, db.nextId, taskId, r); }
      hide RowsSorted, TasksSorted;
      Forget(request);
      if agreed && count > 0 {
        var task := db.GetTask(taskId);
        if task.Some? {
          CreateSubtasks(task.value.id, count, task.value.runId);
          TellTask(task, Some(Decomposed), None);
        }
      }
    }

    // ── timeout_monitor ──────────────────────────────────────────────────────────────────────

    method ExpireStage(row: Row, now: nat)
      requires Valid() && row in db.runs && clock == now
      modifies this`trails, db`runs, db`tasks
      ensures Valid()
      ensures forall x :: x in old(db.runs) && x.id != row.id ==> x in db.runs
      ensures forall r :: ViewOf(r) == if r == row.runId then ExpiredRow(old(ViewOf(r)), row, now) else old(ViewOf(r))
    {
      hide RowsOf, TasksOf, RowsSorted, TasksSorted, SetTask, PatchRow, Home, PendOf;
      db.UpdatePipelineStage(row, TimedOut, row.outcome.agent, None, Some("stage timed out"), now);
      var task := db.GetTaskByRunId(row.runId);
      TellTask(task, Some(Broken), None);
      Note(row.runId, Expired(row));
    }

    /** The monitor's loop over the rows it has read. */
    method ExpireAll(stale: seq<Row>, now: nat)
      requires Valid() && clock == now
      requires forall i :: 0 <= i < |stale| ==> stale[i] in db.runs
      requires forall i, j :: 0 <= i < j < |stale| ==> stale[i].id < stale[j].id
      modifies this`trails, db`runs, db`tasks
      ensures Valid()
      ensures forall r :: ViewOf(r) == Expire(old(ViewOf(r)), RowsOf(stale, r), now)
    {
      hide Valid, ViewOf, ExpiredRow;
      for i := 0 to |stale|
        invariant Valid() && clock == now
        invariant forall k :: i <= k < |stale| ==> stale[k] in db.runs
        invariant forall r :: ViewOf(r) == Expire(old(ViewOf(r)), RowsOf(stale[..i], r), now)
      {
        hide RowsOf, Expire;
        assert stale[..i + 1] == stale[..i] + [stale[i]];
        forall r
          ensures Expire(old(ViewOf(r)), RowsOf(stale[..i + 1], r), now) ==
                  if r == stale[i].runId then ExpiredRow(ViewOf(r), stale[i], now) else ViewOf(r)
        {
          RowsOfAppend(stale[..i], stale[i], r);
          ExpireMore(old(ViewOf(r)), RowsOf(stale[..i], r), stale[i], now);
        }
        ExpireStage(stale[i], now);
      }
      assert stale[..|stale|] == stale;
    }

    /** One round of the monitor: the stale rows are read once and then handled one by one. */
    method CheckTimeouts(now: nat)
      requires Valid() && clock <= now
      modifies this`trails, this`clock, db`runs, db`tasks
      ensures Valid()
      ensures forall r :: ViewOf(r) == Step(old(ViewOf(r)), r, Tick(now))
    {
      clock := now;
      var stale := db.GetTimedOutStages(now);
      StaleAreRows(db.runs, db.nextId, now);
      forall r ensures StaleRows(ViewOf(r).rows, now) == RowsOf(stale, r) { StaleRowsOf(db.runs, now, r); }
      hide RowsOf, TasksOf, StaleRows, Expire, PendOf, TrailOf, TasksSorted, Home;
      ExpireAll(stale, now);
    }

    // ── Task deletion, external tasks and restart ────────────────────────────────────────────

    /** abort_pipeline keeps the tables valid and touches the task alone. */
    method AbortFound(task: Task)
      requires Valid()
      modifies db`tasks
      ensures Valid() && db.tasks == SetTask(old(db.tasks), task.id, Some(Broken), None)
    {
      hide RowsOf, TasksOf, RowsSorted, TasksSorted, PendOf, Home, Dated, SetTask;
      AbortPipeline(Some(task));
    }

    /** A running or recovering task is aborted before it is deleted. */
    method AbortIfActive(root: nat) returns (run: nat)
      requires Valid()
      modifies db`tasks
      ensures Valid() && RunOf(FindTask(db.tasks, root)) == RunOf(FindTask(old(db.tasks), root)) == run
      ensures Without(db.tasks, root) == Without(old(db.tasks), root)
      ensures ChildIds(db.tasks, root) == ChildIds(old(db.tasks), root)
      ensures |db.tasks| == |old(db.tasks)|
    {
      var task := db.GetTask(root);
      run := RunOf(task);
      AbortedGone(db.tasks, root);
      hide Valid, ChildIds, Without, FindTask, SetTask;
      if task.Some? {
        if task.value.status == InProgress || task.value.status == Recovering {
          AbortFound(task.value);
        }
      }
    }

    /** on_task_delete and task_delete_handler: the task goes with its direct children. Returns the
        reported count and ids. */
    method DeleteTask(root: nat) returns (count: nat, ids: seq<nat>)
      requires Valid()
      modifies this`trails, db`tasks, db`logs, db`bindings, db`runs
      ensures Valid()
      ensures count == |old(db.tasks)| - |db.tasks| && ids == [root] + ChildIds(old(db.tasks), root)
      ensures db.logs == Minus(old(db.logs), LogKey, ids) && db.bindings == Minus(old(db.bindings), BindingKey, ids)
      ensures forall r :: ViewOf(r) == OnDelete(old(ViewOf(r)), r, root)
    {
      hide RowsOf, TasksOf, WithoutRun, Without, RowsSorted, TasksSorted;
      hide PendOf, Minus, ChildIds, Home, OnDelete, FindTask, Dated;
      var run := AbortIfActive(root);
      count, ids := db.DeleteTaskCascade(root);
      if run != 0 {
        Note(run, Wiped(old(ViewOf(run)).rows));
      }
      forall r ensures ViewOf(r) == OnDelete(old(ViewOf(r)), r, root) {
        CascadeView(old(ViewOf(r)), old(db.runs), old(db.tasks), old(db.nextId), r, root);
      }
    }

    /** on_task_create: a task outside every run, under any parent. */
    method CreateExternalTask(parent: nat) returns (task: Task)
      requires Valid()
      modifies db`tasks, db`nextId
      ensures Valid() && task == Task(old(db.nextId), 0, parent, Pending, None) && db.tasks == old(db.tasks) + [task]
      ensures db.nextId == old(db.nextId) + 1
      ensures forall r :: r != 0 ==> ViewOf(r) == old(ViewOf(r))
    {
      hide RowsOf, TasksOf, RowsSorted, TasksSorted, PendOf, Home;
      task := db.CreateTask(0, parent, Pending, None);
    }

    /** A new king process: the tables stay, the pending requests are gone. */
    method Restart()
      requires Valid()
      modifies this`pending
      ensures Valid() && pending == map[]
      ensures forall r :: ViewOf(r) == Step(old(ViewOf(r)), r, Event.Restart)
    {
      pending := map[];
    }
  }

  function IdIfAny(t: Option<Task>): Option<nat> {
    if t.Some? then Some(t.value.id) else None
  }

  function RunOf(t: Option<Task>): nat {
    if t.Some? then t.value.runId else 0
  }

  /** What the cascade does to one run. */
  lemma CascadeView(v: View, runs: seq<Row>, tasks: seq<Task>, bound: nat, r: nat, root: nat)
    requires TasksSorted(tasks, bound) && v.rows == RowsOf(runs, r) && v.tasks == TasksOf(tasks, r)
    ensures var found := RunOf(FindTask(tasks, root));
            OnDelete(v, r, root) ==
            View(RowsOf(if found != 0 then WithoutRun(runs, found) else runs, r),
                 TasksOf(Without(tasks, root), r), v.pend,
                 if r != 0 && r == found then v.trail + [Wiped(v.rows)] else v.trail)
  {
    FindInRun(tasks, bound, root, r);
    TasksOfWithout(tasks, root, r);
    RowsOfWithoutRun(runs, RunOf(FindTask(tasks, root)), r);
    hide RowsOf, TasksOf, WithoutRun, Without, TasksSorted, FindTask;
  }

  /** Telling a task before deleting it makes no difference. */
  lemma {:induction false} AbortedGone(tasks: seq<Task>, root: nat)
    ensures var told := SetTask(tasks, root, Some(Broken), None);
            && |told| == |tasks|
            && Without(told, root) == Without(tasks, root) && ChildIds(told, root) == ChildIds(tasks, root)
            && RunOf(FindTask(tasks, root)) == RunOf(FindTask(told, root))
  {
    if tasks != [] {
      var front, last := Front(tasks), Last(tasks);
      var told, last' := SetTask(front, root, Some(Broken), None), SetTask([last], root, Some(Broken), None)[0];
      AbortedGone(front, root);
      assert tasks == front + [last];
      SetAppend(front, last, root, Some(Broken), None);
      assert SetTask([last], root, Some(Broken), None) == [last'];
      assert Front(told + [last']) == told;
      hide SetTask;
    }
  }

  lemma {:induction false} TaskSeen(tasks: seq<Task>, t: Task)
    requires t in tasks
    ensures TasksOf(tasks, t.runId) != []
  {
    if Last(tasks) != t { TaskSeen(Front(tasks), t); }
  }

  lemma {:induction false} StaleAreRows(rows: seq<Row>, bound: nat, now: nat)
    requires RowsSorted(rows, bound)
    ensures RowsSorted(StaleRows(rows, now), bound)
    ensures forall i :: 0 <= i < |StaleRows(rows, now)| ==> StaleRows(rows, now)[i] in rows
  {
    if rows != [] {
      StaleAreRows(Front(rows), bound, now);
      var rest := StaleRows(Front(rows), now);
      forall i | 0 <= i < |rest| ensures rest[i].id < Last(rows).id {
        assert rest[i] in Front(rows);
      }
    }
  }

  lemma ExpireMore(v: View, stale: seq<Row>, row: Row, now: nat)
    ensures Expire(v, stale + [row], now) == ExpiredRow(Expire(v, stale, now), row, now)
  {
    assert Front(stale + [row]) == stale;
  }

  lemma {:induction false} FirstStaysFirst(rows: seq<Row>, stage: Stage, k: nat)
    requires k <= |rows| && FindRunning(rows[..k], stage).Some?
    ensures FindRunning(rows, stage) == FindRunning(rows[..k], stage)
  {
    if k == |rows| {
      assert rows[..k] == rows;
    } else {
      assert Front(rows)[..k] == rows[..k];
      FirstStaysFirst(Front(rows), stage, k);
    }
  }
}
