/**
 * socket_server.rs and main.rs: the messages that reach the coordinator. Each handler is proved to
 * keep every run on an allowed history, so that all results about such histories hold of the
 * tables; the two conditions under which that fails are stated as such.
 */
module SocketServer {
  import opened Basics
  import opened Stages
  import opened RunMachine
  import opened RunInvariants
  import opened RunTheorems
  import opened RunEffects
  import opened RunLimits
  import opened Tables
  import opened TaskDb
  import opened MemoryDb
  import opened Coordinator

  /** pipeline:stage_result. A missing run id is 0; a missing or unknown stage is None. */
  datatype StageMessage = StageMessage(run: nat, stage: Option<Stage>, agent: Option<string>, status: Option<RowStatus>,
                                       artifact: Option<string>, output: string, error: Option<string>, pretty: string,
                                       subtasks: nat)

  /** The result a message stands for, with the defaults of its missing fields. */
  function ResultOf(m: StageMessage): (r: StageResult)
    requires m.stage.Some?
    ensures m.stage == Some(r.stage) && m.output == r.output && m.error == r.error && m.subtasks == r.subtasks
    ensures if m.status.Some? then m.status == Some(r.status) else r.status == Completed
    ensures if m.agent.Some? then m.agent == Some(r.agent) else r.agent == "unknown"
    ensures if m.artifact.Some? then m.artifact == Some(r.artifact) else r.artifact == ""
  {
    StageResult(m.stage.value, OrElse(m.status, Completed), OrElse(m.agent, "unknown"), OrElse(m.artifact, ""),
                m.output, m.error, m.subtasks)
  }

  class King {
    const coordinator: PipelineCoordinator

    ghost predicate Valid()
      reads coordinator, coordinator.db
    {
      coordinator.Valid() && MemoriesOk(coordinator.db)
    }

    /** If the request is still pending, it is a recovery request for this run and task. */
    predicate Echoes(a: Advice)
      reads coordinator
    {
      a.request in coordinator.pending ==> coordinator.pending[a.request] == PendingRequest(a.run, a.task, ForRecovery)
    }

    /** The message closes a running row as completed or failed. */
    predicate Extracts(m: StageMessage)
      reads coordinator, coordinator.db
    {
      && m.run != 0 && m.stage.Some? && ResultOf(m).status in {Completed, Failed}
      && FindRunning(RowsOf(coordinator.db.runs, m.run), m.stage.value).Some?
    }

    constructor ()
      ensures Valid() && coordinator.Sound() && fresh(coordinator) && fresh(coordinator.db)
    {
      coordinator := new PipelineCoordinator();
    }

    method StartRun(input: string, now: nat) returns (run: nat)
      requires Valid() && coordinator.clock <= now
      modifies coordinator, coordinator.db
      ensures Valid() && (old(coordinator.Sound()) ==> coordinator.Sound())
      ensures old(coordinator.Sound()) ==> old(coordinator.ViewOf(run)) == EMPTY
      ensures old(coordinator.Sound()) ==>
                var v := coordinator.ViewOf(run);
                && v.rows == [Row(run + 1, run, Learning, "", input, Outcome("", None, None), Running, 0, now)]
                && v.tasks == [Task(run + 2, run, 0, InProgress, Some(Learning))]
                && v.pend == map[] && v.trail == [Next(Learning, "", input, 0, now)]
      ensures forall r :: coordinator.ViewOf(r) ==
                          if r == run then Began(old(coordinator.ViewOf(r)), run, input, run + 1, now)
                          else old(coordinator.ViewOf(r))
    {
      run := coordinator.StartRun(input, now);
      if old(coordinator.Sound()) {
        hide PipelineCoordinator.ViewOf, PipelineCoordinator.Valid;
        coordinator.KeepsSound(Begin(input, run + 1, now));
      }
    }

    /** on_pipeline_stage_result: messages without a run id or with no valid stage are dropped. */
    method OnPipelineStageResult(m: StageMessage, delivered: bool, now: nat)
      requires Valid() && coordinator.clock <= now
      modifies coordinator, coordinator.db
      ensures Valid() && (old(coordinator.Sound()) ==> coordinator.Sound())
      ensures forall r :: coordinator.ViewOf(r) ==
                if r == m.run && r != 0 && m.stage.Some?
                then OnResult(old(coordinator.ViewOf(r)), r, ResultOf(m), delivered, old(coordinator.db.nextId), now)
                else old(coordinator.ViewOf(r))
      ensures |coordinator.db.memories| == |old(coordinator.db.memories)| + if old(Extracts(m)) then 1 else 0
    {
      hide MemoriesOk, TierMap, RowsOf, TasksOf, FindRunning, Abstract, Shortened;
      if m.run == 0 { return; }
      if m.stage.None? { return; }
      coordinator.ViewFacts(m.run);
      ghost var e := Result(ResultOf(m), delivered, coordinator.db.nextId, now);
      StepEmpty(m.run, e);
      ghost var remembered := coordinator.OnStageResult(m.run, ResultOf(m), m.pretty, delivered, now);
      if old(coordinator.Sound()) {
        hide PipelineCoordinator.ViewOf, PipelineCoordinator.Valid, OnResult, ResultOf;
        coordinator.KeepsSound(e);
      }
    }

    /** The rows of the run that a pending response names. */
    lemma AdviceDiscipline(a: Advice, now: nat)
      requires coordinator.Valid() && a.request in coordinator.pending && RowsOk(coordinator.ViewOf(a.run).rows)
      ensures var v, c := coordinator.ViewOf(a.run), coordinator.ContextOf(a);
              var after := Step(v, a.run, coordinator.Heard(a, now)).rows;
              RowsOk(after) && Undisturbed(v.rows, after) <==> Safe(v.rows, Decide(v.rows, c.task, a.action))
    {
      var db, v := coordinator.db, coordinator.ViewOf(a.run);
      coordinator.ViewFacts(a.run);
      hide PipelineCoordinator.Valid, FreshFor, NotBefore, RowsOk, Undisturbed, Safe, Decide, Enact, FindTask;
      DisciplineKeptIff(v, v.(pend := v.pend - {a.request}), a.run, a, FindTask(db.tasks, a.task), db.nextId, now);
    }

    /** What any response does to any run. */
    lemma AdviceKept(r: nat, a: Advice, now: nat)
      requires coordinator.Valid() && coordinator.clock <= now && r != 0 && Inv(coordinator.ViewOf(r))
      ensures var v, e := coordinator.ViewOf(r), coordinator.Heard(a, now);
              Kept(v, Step(v, r, e)) <==> Tolerable(v, r, e)
    {
      coordinator.ViewFacts(r);
      coordinator.SeesContext(r, a);
      hide PipelineCoordinator.Valid, PipelineCoordinator.ViewOf, PipelineCoordinator.ContextOf;
      hide FreshFor, NotBefore, Sees, Kept, Tolerable, Step, Inv;
      StepKeptIff(coordinator.ViewOf(r), r, coordinator.Heard(a, now));
    }

    lemma AdviceKeptAll(a: Advice, now: nat)
      requires coordinator.Valid() && coordinator.clock <= now
      ensures var e := coordinator.Heard(a, now);
              forall r :: r != 0 && Inv(coordinator.ViewOf(r)) ==>
                (Kept(coordinator.ViewOf(r), Step(coordinator.ViewOf(r), r, e)) <==>
                 Tolerable(coordinator.ViewOf(r), r, e))
    {
      hide *;
      var e := coordinator.Heard(a, now);
      forall r | r != 0 && Inv(coordinator.ViewOf(r))
        ensures var v := coordinator.ViewOf(r); Kept(v, Step(v, r, e)) <==> Tolerable(v, r, e)
      {
        AdviceKept(r, a, now);
      }
    }

    /** What a message that echoes its request does, before it does it. */
    lemma EchoFacts(a: Advice, now: nat)
      requires Valid() && coordinator.clock <= now && Echoes(a)
      ensures var e := coordinator.Heard(a, now);
              && Allowed(coordinator.ViewOf(a.run), a.run, e)
              && (coordinator.ViewOf(a.run) == EMPTY ==> Step(EMPTY, a.run, e) == EMPTY)
              && forall r :: r != a.run ==> Step(coordinator.ViewOf(r), r, e) == coordinator.ViewOf(r)
    {
      coordinator.ViewFacts(a.run);
      if a.request in coordinator.pending {
        forall r { coordinator.OwnAdvice(r, a, now); }
      }
      hide FreshFor, NotBefore, MemoriesOk, RowsOf, TasksOf;
    }

    /** error:recovery_response. The coordinator does not compare the message with the request it
        consumes; the runs stay sound if the message answers a recovery request and echoes it. Any message
        keeps the invariant and the closed rows of a run exactly when it is tolerable there, and keeps the
        rows of the run it names in order, and all but a failed newest one untouched, exactly when the
        verdict is safe. */
    method OnRecoveryResponse(a: Advice, now: nat)
      requires Valid() && coordinator.clock <= now
      modifies coordinator, coordinator.db
      ensures Valid()
      ensures old(Echoes(a)) && old(coordinator.Sound()) ==> coordinator.Sound()
      ensures old(Echoes(a)) ==> forall r :: r != a.run ==> coordinator.ViewOf(r) == old(coordinator.ViewOf(r))
      ensures forall r :: coordinator.ViewOf(r) == Step(old(coordinator.ViewOf(r)), r, old(coordinator.Heard(a, now)))
      ensures forall r :: r != 0 && Inv(old(coordinator.ViewOf(r))) ==>
                (Kept(old(coordinator.ViewOf(r)), coordinator.ViewOf(r)) <==>
                 Tolerable(old(coordinator.ViewOf(r)), r, old(coordinator.Heard(a, now))))
      ensures old(a.request in coordinator.pending) && RowsOk(old(coordinator.ViewOf(a.run)).rows) ==>
                var rows, after := old(coordinator.ViewOf(a.run)).rows, coordinator.ViewOf(a.run).rows;
                RowsOk(after) && Undisturbed(rows, after) <==>
                Safe(rows, Decide(rows, old(coordinator.ContextOf(a)).task, a.action))
    {
      hide RowsOk, Undisturbed, Safe, Decide, FindTask, MemoriesOk, Allowed, Kept, Tolerable, Inv, Step;
      ghost var e := coordinator.Heard(a, now);
      if a.request in coordinator.pending && RowsOk(coordinator.ViewOf(a.run).rows) { AdviceDiscipline(a, now); }
      AdviceKeptAll(a, now);
      if Echoes(a) { EchoFacts(a, now); }
      hide PipelineCoordinator.Valid, PipelineCoordinator.ViewOf;
      hide PipelineCoordinator.ContextOf, PipelineCoordinator.Heard;
      coordinator.OnRecoveryResponse(a, now);
      if old(Echoes(a)) && old(coordinator.Sound()) {
        coordinator.KeepsSound(e);
      }
    }

    /** A request for a task in the tables is allowed, and its run is not empty. */
    lemma AskFacts(task: Task)
      requires coordinator.Valid() && task in coordinator.db.tasks
      ensures Allowed(coordinator.ViewOf(task.runId), task.runId, Ask(task.id, coordinator.db.nextId))
      ensures coordinator.ViewOf(task.runId) != EMPTY
    {
      coordinator.ViewFacts(task.runId);
      coordinator.TaskOfRun(task);
      hide PipelineCoordinator.Valid, PipelineCoordinator.ViewOf, FreshFor, NotBefore;
    }

    /** task_decompose_handler: a request is registered for the run of the task, if there is one, and
        stays registered even if it cannot be emitted and failure is reported. */
    method DecomposeTask(id: nat, delivered: bool) returns (success: bool)
      requires Valid()
      modifies coordinator, coordinator.db
      ensures Valid() && (old(coordinator.Sound()) ==> coordinator.Sound())
      ensures success == (FindTask(old(coordinator.db.tasks), id).Some? && delivered)
      ensures var task := FindTask(old(coordinator.db.tasks), id);
              forall r :: coordinator.ViewOf(r) ==
                          if task.Some? && r == task.value.runId
                          then Step(old(coordinator.ViewOf(r)), r, Ask(id, old(coordinator.db.nextId)))
                          else old(coordinator.ViewOf(r))
    {
      var task := coordinator.db.GetTask(id);
      if task.None? { return false; }
      ghost var e := Ask(id, coordinator.db.nextId);
      AskFacts(task.value);
      hide PipelineCoordinator.Valid, PipelineCoordinator.ViewOf, Allowed, Step, MemoriesOk, FindTask;
      success := coordinator.RequestDecomposition(task.value, delivered);
      if old(coordinator.Sound()) { coordinator.KeepsSound(e); }
    }

    /** task:decompose_result. Nothing is assumed of the message. */
    method OnDecomposeResult(request: nat, task: nat, agreed: bool, count: nat)
      requires Valid()
      modifies coordinator, coordinator.db
      ensures Valid() && (old(coordinator.Sound()) ==> coordinator.Sound())
      ensures forall r :: coordinator.ViewOf(r) ==
                if request in old(coordinator.pending)
                then Step(old(coordinator.ViewOf(r)), r,
                          Event.Split(request, task, agreed, count, old(coordinator.db.nextId)))
                else old(coordinator.ViewOf(r))
    {
      forall r { coordinator.ViewFacts(r); }
      ghost var e := Event.Split(request, task, agreed, count, coordinator.db.nextId);
      forall r { StepEmpty(r, e); }
      hide PipelineCoordinator.Valid, PipelineCoordinator.ViewOf, FreshFor, NotBefore, Step;
      coordinator.OnDecomposeResult(request, task, agreed, count);
      if old(coordinator.Sound()) { coordinator.KeepsSound(e); }
    }

    /** timeout_monitor, once a minute. */
    method CheckTimeouts(now: nat)
      requires Valid() && coordinator.clock <= now
      modifies coordinator, coordinator.db
      ensures Valid() && (old(coordinator.Sound()) ==> coordinator.Sound())
      ensures forall r :: coordinator.ViewOf(r) == Step(old(coordinator.ViewOf(r)), r, Tick(now))
    {
      forall r { coordinator.ViewFacts(r); }
      forall r { StepEmpty(r, Tick(now)); }
      hide PipelineCoordinator.Valid, PipelineCoordinator.ViewOf, FreshFor, NotBefore, Step;
      coordinator.CheckTimeouts(now);
      if old(coordinator.Sound()) { coordinator.KeepsSound(Tick(now)); }
    }

    /** on_task_delete: success means that some task went, be it only a child of an unknown id. */
    method OnTaskDelete(root: nat) returns (success: bool, count: nat)
      requires Valid()
      modifies coordinator, coordinator.db
      ensures Valid() && (old(coordinator.Sound()) && root != 0 ==> coordinator.Sound())
      ensures count == |old(coordinator.db.tasks)| - |coordinator.db.tasks| && success == (count > 0)
      ensures forall r :: coordinator.ViewOf(r) == OnDelete(old(coordinator.ViewOf(r)), r, root)
    {
      forall r { StepEmpty(r, Delete(root)); }
      hide PipelineCoordinator.Valid, PipelineCoordinator.ViewOf, OnDelete, TablesOk, Minus, ChildIds;
      var ids;
      count, ids := coordinator.DeleteTask(root);
      var db := coordinator.db;
      BindingsGone(db.memories, db.tiers, old(coordinator.db.bindings), db.nextMemoryId, ids);
      success := count > 0;
      assert forall r :: coordinator.ViewOf(r) == Step(old(coordinator.ViewOf(r)), r, Delete(root));
      hide Step;
      if old(coordinator.Sound()) && root != 0 { coordinator.KeepsSound(Delete(root)); }
    }

    /** on_task_create: a missing, empty or over-long type is refused; the new task belongs to no run. */
    method OnTaskCreate(taskType: Option<string>, parent: nat) returns (task: Option<Task>)
      requires Valid()
      modifies coordinator, coordinator.db
      ensures Valid() && (old(coordinator.Sound()) ==> coordinator.Sound())
      ensures forall r :: r != 0 ==> coordinator.ViewOf(r) == old(coordinator.ViewOf(r))
      ensures task.Some? <==> taskType.Some? && 0 < |taskType.value| <= 64
      ensures task.Some? ==> task.value == Task(old(coordinator.db.nextId), 0, parent, Pending, None)
      ensures coordinator.db.tasks == old(coordinator.db.tasks) + if task.Some? then [task.value] else []
    {
      hide PipelineCoordinator.Valid, PipelineCoordinator.ViewOf, Reached;
      if taskType.None? || taskType.value == "" || |taskType.value| > 64 { return None; }
      var created := coordinator.CreateExternalTask(parent);
      task := Some(created);
    }

    /** The king stops and starts again. */
    method Restart()
      requires Valid()
      modifies coordinator
      ensures Valid() && (old(coordinator.Sound()) ==> coordinator.Sound())
      ensures coordinator.pending == map[]
      ensures forall r :: coordinator.ViewOf(r) == Step(old(coordinator.ViewOf(r)), r, Event.Restart)
    {
      forall r { StepEmpty(r, Event.Restart); }
      hide PipelineCoordinator.Valid, PipelineCoordinator.ViewOf;
      coordinator.Restart();
      if old(coordinator.Sound()) { coordinator.KeepsSound(Event.Restart); }
    }

    /** What the run theorems say about the tables of a king that has only seen these messages. */
    lemma EveryRunIsDisciplined(r: nat)
      requires coordinator.Sound() && r != 0
      ensures var rows := RowsOf(coordinator.db.runs, r);
              && |rows| <= 5
              && (forall i, j :: 0 <= i < j < |rows| ==> Rank(rows[i].stage) < Rank(rows[j].stage))
              && (forall i :: 0 <= i < |rows| && rows[i].status == Running ==> i == |rows| - 1)
              && (forall i :: 0 <= i < |rows| ==> rows[i].retryCount <= 3)
              && Total(TrailOf(coordinator.trails, r), Sent) <= 20
    {
      var es :| AllAllowed(r, es) && Replay(r, es) == coordinator.ViewOf(r);
      RowDiscipline(r, es);
      DispatchAccounts(r, es);
      hide Replay, AllAllowed, RowsOf, Total;
    }

    /** In the tables, what one stage produces is what the next one is given, as long as no row of the run has
        been deleted. */
    lemma StagesHandOver(r: nat)
      requires coordinator.Sound() && r != 0
      requires TrailOf(coordinator.trails, r) != [] && NoWipe(TrailOf(coordinator.trails, r))
      ensures Handed(RowsOf(coordinator.db.runs, r), TrailOf(coordinator.trails, r))
    {
      var es :| AllAllowed(r, es) && Replay(r, es) == coordinator.ViewOf(r);
      hide Replay, AllAllowed, RowsOf, NoWipe, Handed;
      HandedOver(r, es);
    }

    /** Over all runs, at most one request asks for the recovery of a run. */
    lemma OneRecoveryPerRun(p: nat, q: nat)
      requires coordinator.Sound() && p in coordinator.pending && q in coordinator.pending
      requires coordinator.pending[p].kind == ForRecovery && coordinator.pending[q].kind == ForRecovery
      requires coordinator.pending[p].run == coordinator.pending[q].run != 0
      ensures p == q
    {
      var r := coordinator.pending[p].run;
      var es :| AllAllowed(r, es) && Replay(r, es) == coordinator.ViewOf(r);
      RowDiscipline(r, es);
      assert p in Recoveries(coordinator.ViewOf(r).pend) && q in Recoveries(coordinator.ViewOf(r).pend);
    }
  }
}
