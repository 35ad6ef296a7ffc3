/**
 * What each event does to a run, column by column: the rows, the tasks, the requests and the history
 * after a stage result, a recovery response, a decomposition result and a tick, told from the message and
 * the state before it. Then what follows for whole histories: what one stage produces is what the next
 * one is given, and no response leaves its task recovering.
 */
module RunEffects {
  import opened Basics
  import opened Stages
  import opened RunMachine
  import opened RunInvariants
  import opened RunTheorems

  // ── The start ──────────────────────────────────────────────────────────────────────────────

  /** The first row and the first dispatch carry the input and no artifact; the main task works on learning. */
  lemma BeginAnswers(v: View, run: nat, input: string, newId: nat, now: nat)
    ensures var z := Began(v, run, input, newId, now);
            && z.rows == v.rows + [Row(newId, run, Learning, "", input, Outcome("", None, None), Running, 0, now)]
            && z.tasks == v.tasks + [Task(newId + 1, run, 0, InProgress, Some(Learning))]
            && z.trail == v.trail + [Next(Learning, "", input, 0, now)] && z.pend == v.pend
  {
  }

  // ── Stage results ──────────────────────────────────────────────────────────────────────────

  /** The newest row runs and is of this stage. */
  ghost predicate Awaits(v: View, stage: Stage) {
    v.rows != [] && Last(v.rows).status == Running && Last(v.rows).stage == stage
  }

  /** The newest row as the result closes it. */
  ghost predicate ClosedBy(row: Row, z: Row, m: StageResult, now: nat) {
    z == row.(status := m.status, updatedAt := now,
              outcome := Outcome(m.agent, Some(m.output), Some(if m.error.Some? then m.error.value else "")))
  }

  /** A completed stage other than the last hands over to the one after it. */
  ghost predicate Hands(m: StageResult, next: Stage) {
    m.status == Completed && Rank(next) == Rank(m.stage) + 1
  }

  ghost predicate RowsAfterResult(v: View, z: View, run: nat, m: StageResult, id: nat, now: nat) {
    var n := |v.rows| - 1;
    && 0 <= n < |z.rows| && z.rows[..n] == v.rows[..n] && ClosedBy(v.rows[n], z.rows[n], m, now)
    && (m.status != Completed || m.stage == SkillManage ==> |z.rows| == |v.rows|)
    && forall next :: Hands(m, next) ==>
         z.rows[n + 1..] == [Row(id, run, next, m.artifact, m.output, Outcome("", None, None), Running, 0, now)]
  }

  ghost predicate TrailAfterResult(v: View, z: View, m: StageResult, delivered: bool, newId: nat, now: nat) {
    && (m.status == Failed && delivered ==> z.trail == v.trail + [Accepted(m), Asked(newId)])
    && (forall next :: Hands(m, next) ==>
          z.trail == v.trail + [Accepted(m), Next(next, m.artifact, m.output, 0, now)])
    && (!(m.status == Failed && delivered) && (m.status != Completed || m.stage == SkillManage) ==>
          z.trail == v.trail + [Accepted(m)])
  }

  /** The newest task after a result. */
  ghost predicate ToldResult(t: Task, u: Task, m: StageResult, delivered: bool) {
    && (m.status == Failed ==> u == t.(status := if delivered then Recovering else Broken))
    && (m.status == Completed && m.stage == SkillManage ==> u == t.(status := Done))
    && (forall next :: Hands(m, next) ==> u == t.(stage := Some(next)))
    && (m.status != Failed && m.status != Completed ==> u == t)
  }

  /** How many subtasks a result makes: those of a completed evaluation, if there is a task. */
  function SubtasksOf(v: View, m: StageResult): nat {
    if m.status == Completed && m.stage == Evaluation && v.tasks != [] then m.subtasks else 0
  }

  /** Only the newest task is told; new ones stand below it. */
  ghost predicate TasksAfterResult(v: View, z: View, run: nat, m: StageResult, delivered: bool, newId: nat) {
    var n := |v.tasks| - 1;
    && |z.tasks| == |v.tasks| + SubtasksOf(v, m)
    && (forall i :: 0 <= i < n ==> z.tasks[i] == v.tasks[i])
    && (n >= 0 ==> ToldResult(v.tasks[n], z.tasks[n], m, delivered))
    && (forall i :: |v.tasks| <= i < |z.tasks| ==>
          z.tasks[i] == Task(newId + i - |v.tasks|, run, v.tasks[n].id, Pending, None))
  }

  /** A recovery is asked for exactly when a failure could be reported, for the newest task. */
  ghost predicate PendAfterResult(v: View, z: View, m: StageResult, delivered: bool, newId: nat) {
    var id := if v.tasks == [] then 0 else v.tasks[|v.tasks| - 1].id;
    z.pend == if m.status == Failed && delivered then v.pend[newId := Request(ForRecovery, id)] else v.pend
  }

  lemma SetNewest(tasks: seq<Task>, us: seq<Task>, t: Task, status: TaskStatus)
    requires TasksOk(tasks) && tasks != [] && t.id == Last(tasks).id && |us| == |tasks|
    requires forall i :: 0 <= i < |us| ==> us[i].id == tasks[i].id && (i < |us| - 1 ==> us[i] == tasks[i])
    ensures var ws := SetFound(us, Some(t), Some(status), None);
            ws == tasks[|tasks| - 1 := Last(us).(status := status)]
  {
  }

  lemma FailedTasks(v: View, z: View, run: nat, m: StageResult, delivered: bool, newId: nat)
    requires TasksOk(v.tasks) && m.status == Failed
    requires var us := SetFound(v.tasks, Newest(v.tasks), Some(Recovering), None);
             z.tasks == if delivered then us else SetFound(us, Newest(v.tasks), Some(Broken), None)
    ensures TasksAfterResult(v, z, run, m, delivered, newId)
  {
    if v.tasks != [] {
      var us := SetFound(v.tasks, Newest(v.tasks), Some(Recovering), None);
      SetNewest(v.tasks, v.tasks, Last(v.tasks), Recovering);
      SetNewest(v.tasks, us, Last(v.tasks), Broken);
    }
    hide SetFound, SetTask, TasksOk;
  }

  lemma FailedAnswers(v: View, w: View, run: nat, m: StageResult, delivered: bool, newId: nat, now: nat)
    requires TasksOk(v.tasks) && m.status == Failed
    requires w.tasks == v.tasks && w.pend == v.pend && w.trail == v.trail + [Accepted(m)]
    ensures var z := OnFailed(w, delivered, newId);
            && z.rows == w.rows && TrailAfterResult(v, z, m, delivered, newId, now)
            && TasksAfterResult(v, z, run, m, delivered, newId) && PendAfterResult(v, z, m, delivered, newId)
  {
    var z := OnFailed(w, delivered, newId);
    assert v.trail + [Accepted(m)] + [Asked(newId)] == v.trail + [Accepted(m), Asked(newId)];
    hide SetFound, TasksOk, TasksAfterResult, Recoveries;
    FailedTasks(v, z, run, m, delivered, newId);
  }

  /** The stage that a completed one hands over to. */
  lemma HandsIff(m: StageResult)
    requires m.status == Completed
    ensures NextStage(m.stage).None? <==> m.stage == SkillManage
    ensures forall next :: Hands(m, next) <==> NextStage(m.stage) == Some(next)
  {
    forall next ensures Hands(m, next) <==> NextStage(m.stage) == Some(next) { NextStageIsSuccessor(m.stage, next); }
  }

  lemma ToldAndJoined(v: View, z: View, run: nat, m: StageResult, delivered: bool, newId: nat,
                      status: Option<TaskStatus>, stage: Option<Stage>)
    requires v.tasks != [] && m.status == Completed
    requires stage == NextStage(m.stage) && status == if m.stage == SkillManage then Some(Done) else None
    requires var n := |v.tasks| - 1;
             z.tasks == v.tasks[n := Edited(v.tasks[n], status, stage)]
                        + Subtasks(run, v.tasks[n].id, SubtasksOf(v, m), newId)
    ensures TasksAfterResult(v, z, run, m, delivered, newId)
  {
    HandsIff(m);
    hide Hands, NextStage, SubtasksOf;
  }

  lemma JoinedOk(v: View, run: nat, count: nat, newId: nat)
    requires TasksOk(v.tasks) && FreshFor(v, newId) && v.tasks != []
    ensures TasksOk(v.tasks + Subtasks(run, Last(v.tasks).id, count, newId))
  {
    assert Last(v.tasks) in v.tasks && forall x :: x in v.tasks ==> x.id < newId;
    hide FreshFor;
    AppendSorted(v.tasks, Subtasks(run, Last(v.tasks).id, count, newId), newId);
    hide TasksOk;
  }

  lemma JoinedSet(tasks: seq<Task>, added: seq<Task>, status: Option<TaskStatus>, stage: Option<Stage>)
    requires TasksOk(tasks + added) && tasks != []
    ensures var n := |tasks| - 1;
            SetTask(tasks + added, tasks[n].id, status, stage) ==
            tasks[n := Edited(tasks[n], status, stage)] + added
  {
    SetAt(tasks + added, |tasks| - 1, status, stage);
    hide SetTask, TasksOk;
  }

  /** The tasks after a completed stage, told and joined by subtasks. */
  lemma CompletedTasks(v: View, z: View, run: nat, m: StageResult, delivered: bool, newId: nat,
                       status: Option<TaskStatus>, stage: Option<Stage>)
    requires TasksOk(v.tasks) && FreshFor(v, newId) && m.status == Completed
    requires stage == NextStage(m.stage) && status == if m.stage == SkillManage then Some(Done) else None
    requires z.tasks == SetFound(v.tasks + Subtasks(run, IdOf(Newest(v.tasks)), SubtasksOf(v, m), newId),
                                 Newest(v.tasks), status, stage)
    ensures TasksAfterResult(v, z, run, m, delivered, newId)
  {
    assert v.tasks == [] ==> z.tasks == [] && SubtasksOf(v, m) == 0;
    hide FreshFor, TasksOk, SetTask, Subtasks, SubtasksOf, NextStage;
    if v.tasks != [] {
      hide TasksAfterResult;
      JoinedOk(v, run, SubtasksOf(v, m), newId);
      JoinedSet(v.tasks, Subtasks(run, Last(v.tasks).id, SubtasksOf(v, m), newId), status, stage);
      ToldAndJoined(v, z, run, m, delivered, newId, status, stage);
    }
  }

  lemma CompletedAnswers(v: View, w: View, run: nat, m: StageResult, delivered: bool, newId: nat, now: nat)
    requires TasksOk(v.tasks) && FreshFor(v, newId) && m.status == Completed
    requires w.tasks == v.tasks && w.pend == v.pend && w.trail == v.trail + [Accepted(m)]
    ensures var z := OnCompleted(w, run, m, newId, now);
            && (m.stage == SkillManage ==> z.rows == w.rows)
            && (forall next :: Hands(m, next) ==>
                  z.rows == w.rows + [Row(newId + SubtasksOf(v, m), run, next, m.artifact, m.output,
                                          Outcome("", None, None), Running, 0, now)])
            && TrailAfterResult(v, z, m, delivered, newId, now)
            && TasksAfterResult(v, z, run, m, delivered, newId) && PendAfterResult(v, z, m, delivered, newId)
  {
    var z := OnCompleted(w, run, m, newId, now);
    var t := Newest(v.tasks);
    HandsIff(m);
    hide Hands, NextStage;
    assert v.tasks + Subtasks(run, IdOf(t), SubtasksOf(v, m), newId) ==
           w.tasks + Subtasks(run, IdOf(t), if m.stage == Evaluation && t.Some? then m.subtasks else 0, newId);
    hide TasksOk, FreshFor, SetFound, Subtasks, TasksAfterResult;
    CompletedTasks(v, z, run, m, delivered, newId, if m.stage == SkillManage then Some(Done) else None,
                   NextStage(m.stage));
    forall next | NextStage(m.stage) == Some(next)
      ensures z.trail == v.trail + [Accepted(m), Next(next, m.artifact, m.output, 0, now)]
    {
      assert z.trail == v.trail + [Accepted(m)] + [Next(next, m.artifact, m.output, 0, now)];
    }
  }

  lemma RowsThenNew(v: View, w: View, z: View, run: nat, m: StageResult, id: nat, now: nat)
    requires v.rows != [] && w.rows != [] && w.rows == Front(v.rows) + [Last(w.rows)]
    requires ClosedBy(Last(v.rows), Last(w.rows), m, now)
    requires m.status != Completed || m.stage == SkillManage ==> z.rows == w.rows
    requires forall next :: Hands(m, next) ==>
      z.rows == w.rows + [Row(id, run, next, m.artifact, m.output, Outcome("", None, None), Running, 0, now)]
    ensures RowsAfterResult(v, z, run, m, id, now)
  {
    if m.status == Completed {
      HandsIff(m);
      if m.stage != SkillManage { assert Hands(m, NextStage(m.stage).value); }
    }
    hide ClosedBy, Hands, NextStage;
    assert z.rows[..|v.rows| - 1] == Front(v.rows) == v.rows[..|v.rows| - 1];
  }

  /** A result of a stage that nobody waits for changes nothing. Any other closes the newest row, and starts
      the next one with what was produced; the newest task is told, gets its subtasks after an evaluation, and
      a failure that could be reported awaits a recovery for it. */
  lemma ResultAnswers(v: View, run: nat, m: StageResult, delivered: bool, newId: nat, now: nat)
    requires RowsOk(v.rows) && TasksOk(v.tasks) && FreshFor(v, newId)
    ensures var z := OnResult(v, run, m, delivered, newId, now);
            && (!Awaits(v, m.stage) ==> z == v)
            && (Awaits(v, m.stage) ==>
              && RowsAfterResult(v, z, run, m, newId + SubtasksOf(v, m), now)
              && TrailAfterResult(v, z, m, delivered, newId, now)
              && TasksAfterResult(v, z, run, m, delivered, newId)
              && PendAfterResult(v, z, m, delivered, newId))
  {
    var z := OnResult(v, run, m, delivered, newId, now);
    if FindRunning(v.rows, m.stage).Some? {
      var w := Recorded(v, m, now);
      ResultCloses(v, m, now);
      hide RowsOk, FindRunning;
      assert w.rows == Front(v.rows) + [Last(w.rows)] && ClosedBy(Last(v.rows), Last(w.rows), m, now);
      hide TasksOk, FreshFor, PatchRow;
      match m.status {
        case Failed => FailedAnswers(v, w, run, m, delivered, newId, now);
        case Completed =>
          CompletedAnswers(v, w, run, m, delivered, newId, now);
          HandsIff(m);
        case _ => assert z == w;
      }
      RowsThenNew(v, w, z, run, m, newId + SubtasksOf(v, m), now);
    }
  }

  // ── Recovery responses ─────────────────────────────────────────────────────────────────────

  /** The task that a response names, before and after; `rows` are those of the run it names. */
  ghost predicate ToldResponse(t: Task, u: Task, action: Action, rows: seq<Row>) {
    match action
    case Abort => u == t.(status := Broken)
    case Decompose => u == t.(status := Decomposed)
    case Skip =>
      if t.stage == Some(Evaluation) then u == t.(status := InProgress, stage := Some(SkillManage))
      else u == t.(status := if t.stage == Some(SkillManage) then Done else Broken)
    case Retry =>
      && (NoneAt(rows, t.stage) ==> u == t)
      && forall j :: NewestAt(rows, t.stage, j) ==>
           u == t.(status := if rows[j].retryCount >= 3 then Broken else InProgress)
  }

  /** Every other task stays; a decomposition adds its subtasks in the run that the response names. */
  ghost predicate TasksAfterResponse(v: View, z: View, run: nat, a: Advice, c: Context, newId: nat) {
    && |z.tasks| == |v.tasks| + (if a.action == Decompose && run == a.run && c.task.Some? then a.subtasks else 0)
    && (forall i :: 0 <= i < |v.tasks| ==>
          if v.tasks[i].id == a.task then ToldResponse(v.tasks[i], z.tasks[i], a.action, c.rows)
          else z.tasks[i] == v.tasks[i])
    && (forall i :: |v.tasks| <= i < |z.tasks| ==>
          z.tasks[i] == Task(newId + i - |v.tasks|, run, a.task, Pending, None))
  }

  ghost predicate Unmoved(v: View, z: View) {
    z.rows == v.rows && z.trail == v.trail
  }

  /** The j-th row runs once more and is dispatched with what it was given at first. */
  ghost predicate Rerun(v: View, z: View, j: int, now: nat) {
    0 <= j < |v.rows| &&
    var row := v.rows[j];
    && z.rows == v.rows[j := row.(status := Running, retryCount := row.retryCount + 1, updatedAt := now)]
    && z.trail == v.trail + [Next(row.stage, row.artifact, row.input, row.retryCount + 1, now)]
  }

  /** Skill management starts with the parameters of the response and no artifact; the agent is not told them. */
  ghost predicate Jumped(v: View, z: View, run: nat, a: Advice, newId: nat, now: nat) {
    && z.rows == v.rows + [Row(newId, run, SkillManage, "", a.params, Outcome("", None, None), Running, 0, now)]
    && z.trail == v.trail + [Next(SkillManage, "", "{}", 0, now)]
  }

  ghost predicate RowsAfterResponse(v: View, z: View, run: nat, a: Advice, c: Context, newId: nat, now: nat) {
    var s := if c.task.Some? then c.task.value.stage else None;
    if run != a.run then Unmoved(v, z)
    else
      match a.action
      case Retry =>
        && (NoneAt(v.rows, s) ==> Unmoved(v, z))
        && forall j :: NewestAt(v.rows, s, j) ==>
             if v.rows[j].retryCount >= 3 then Unmoved(v, z) else Rerun(v, z, j, now)
      case Skip => if s == Some(Evaluation) then Jumped(v, z, run, a, newId, now) else Unmoved(v, z)
      case _ => Unmoved(v, z)
  }

  /** What a retry finds, read from the rows themselves. */
  lemma RetryFinds(rows: seq<Row>, t: Option<Task>)
    ensures var verdict, s := Decide(rows, t, Retry), StageOf(t);
            && (NoneAt(rows, s) ==> verdict == Ignore)
            && (verdict == Ignore ==> NoneAt(rows, s))
            && forall j :: NewestAt(rows, s, j) ==>
                 verdict == if rows[j].retryCount >= 3 then GiveUp else Again(rows[j])
  {
    if StageOf(t).Some? { NewestPlace(rows, StageOf(t).value); }
    hide NewestOf;
  }

  /** Telling the task that was found tells the one of that id. */
  lemma ToldOne(v: View, a: Advice, t: Option<Task>, newId: nat, us: seq<Task>,
                status: Option<TaskStatus>, stage: Option<Stage>)
    requires TasksOk(v.tasks) && Locates(v, a, t, newId) && us == SetFound(v.tasks, t, status, stage)
    ensures |us| == |v.tasks|
    ensures forall i :: 0 <= i < |us| ==>
              us[i] == if v.tasks[i].id == a.task then Edited(v.tasks[i], status, stage) else v.tasks[i]
    ensures forall i :: 0 <= i < |us| && v.tasks[i].id == a.task ==> t == Some(v.tasks[i])
  {
    forall i | 0 <= i < |us| && v.tasks[i].id == a.task ensures t == Some(v.tasks[i]) { FoundById(v.tasks, i); }
  }

  lemma AbortAnswers(v: View, run: nat, a: Advice, c: Context, newId: nat, now: nat)
    requires TasksOk(v.tasks) && Locates(v, a, c.task, newId) && c.pending && a.action == Abort
    ensures var z := OnRecovery(v, run, a, c, newId, now);
            TasksAfterResponse(v, z, run, a, c, newId) && Unmoved(v, z)
  {
    ToldOne(v, a, c.task, newId, OnRecovery(v, run, a, c, newId, now).tasks, Some(Broken), None);
    hide SetFound, SetTask, TasksOk, Locates;
  }

  lemma SkipTasks(v: View, z: View, run: nat, a: Advice, c: Context, newId: nat)
    requires TasksOk(v.tasks) && Locates(v, a, c.task, newId) && a.action == Skip
    requires var s := StageOf(c.task);
             z.tasks == if s == Some(Evaluation) then SetFound(v.tasks, c.task, Some(InProgress), Some(SkillManage))
                        else SetFound(v.tasks, c.task, Some(if s == Some(SkillManage) then Done else Broken), None)
    ensures TasksAfterResponse(v, z, run, a, c, newId)
  {
    var s := StageOf(c.task);
    hide SetFound, SetTask, TasksOk, Locates;
    if s == Some(Evaluation) {
      ToldOne(v, a, c.task, newId, z.tasks, Some(InProgress), Some(SkillManage));
    } else {
      ToldOne(v, a, c.task, newId, z.tasks, Some(if s == Some(SkillManage) then Done else Broken), None);
    }
  }

  lemma SkipAnswers(v: View, run: nat, a: Advice, c: Context, newId: nat, now: nat)
    requires TasksOk(v.tasks) && Locates(v, a, c.task, newId) && c.pending && a.action == Skip
    ensures var z := OnRecovery(v, run, a, c, newId, now);
            TasksAfterResponse(v, z, run, a, c, newId) && RowsAfterResponse(v, z, run, a, c, newId, now)
  {
    hide SetFound, SetTask, TasksOk, Locates, TasksAfterResponse;
    SkipTasks(v, OnRecovery(v, run, a, c, newId, now), run, a, c, newId);
  }

  lemma RetryTasks(v: View, z: View, run: nat, a: Advice, c: Context, newId: nat, verdict: Verdict)
    requires TasksOk(v.tasks) && Locates(v, a, c.task, newId) && a.action == Retry
    requires verdict == Decide(c.rows, c.task, Retry) && (verdict == GiveUp || verdict == Ignore || verdict.Again?)
    requires z.tasks == if verdict == Ignore then v.tasks
                        else SetFound(v.tasks, c.task, Some(if verdict == GiveUp then Broken else InProgress), None)
    ensures TasksAfterResponse(v, z, run, a, c, newId)
  {
    RetryFinds(c.rows, c.task);
    ToldOne(v, a, c.task, newId, SetFound(v.tasks, c.task, None, None), None, None);
    if verdict != Ignore {
      ToldOne(v, a, c.task, newId, z.tasks, Some(if verdict == GiveUp then Broken else InProgress), None);
    }
    hide Decide, SetFound, SetTask, TasksOk, Locates, NewestAt, NoneAt;
    forall i | 0 <= i < |v.tasks| && v.tasks[i].id == a.task
      ensures ToldResponse(v.tasks[i], z.tasks[i], Retry, c.rows)
    {
      assert StageOf(c.task) == v.tasks[i].stage;
    }
  }

  lemma PatchAt(rows: seq<Row>, j: nat, p: Patch, now: nat)
    requires RowsOk(rows) && j < |rows|
    ensures PatchRow(rows, rows[j].id, p, now) == rows[j := Patched(rows[j], p, now)]
  {
  }

  lemma RetryRows(v: View, z: View, run: nat, a: Advice, c: Context, newId: nat, now: nat, verdict: Verdict)
    requires RowsOk(v.rows) && a.action == Retry && (a.run == run ==> c.rows == v.rows)
    requires verdict == Decide(c.rows, c.task, Retry)
    requires if a.run == run && verdict.Again?
             then
               var row := verdict.row;
               && z.rows == PatchRow(v.rows, row.id, Reopen, now)
               && z.trail == v.trail + [Next(row.stage, row.artifact, row.input, row.retryCount + 1, now)]
             else Unmoved(v, z)
    ensures RowsAfterResponse(v, z, run, a, c, newId, now)
  {
    var s := StageOf(c.task);
    RetryFinds(c.rows, c.task);
    hide Decide, NoneAt;
    if run == a.run {
      forall j | NewestAt(v.rows, s, j)
        ensures if v.rows[j].retryCount >= 3 then Unmoved(v, z) else Rerun(v, z, j, now)
      {
        PatchAt(v.rows, j, Reopen, now);
        hide RowsOk, PatchRow;
      }
    }
  }

  lemma RetryAnswers(v: View, run: nat, a: Advice, c: Context, newId: nat, now: nat)
    requires RowsOk(v.rows) && TasksOk(v.tasks) && Sees(v, run, a, c, newId) && c.pending && a.action == Retry
    ensures var z := OnRecovery(v, run, a, c, newId, now);
            TasksAfterResponse(v, z, run, a, c, newId) && RowsAfterResponse(v, z, run, a, c, newId, now)
  {
    var z := OnRecovery(v, run, a, c, newId, now);
    var verdict := Decide(c.rows, c.task, Retry);
    assert verdict == GiveUp || verdict == Ignore || verdict.Again?;
    hide Decide, TasksAfterResponse, RowsAfterResponse, SetFound, TasksOk, Locates, RowsOk, PatchRow;
    RetryTasks(v, z, run, a, c, newId, verdict);
    RetryRows(v, z, run, a, c, newId, now, verdict);
  }

  lemma DecomposeAnswers(v: View, run: nat, a: Advice, c: Context, newId: nat, now: nat)
    requires TasksOk(v.tasks) && Locates(v, a, c.task, newId) && c.pending && a.action == Decompose
    ensures var z := OnRecovery(v, run, a, c, newId, now);
            TasksAfterResponse(v, z, run, a, c, newId) && Unmoved(v, z)
  {
    var z := OnRecovery(v, run, a, c, newId, now);
    if c.task.Some? {
      assert z.tasks == SetTask(v.tasks + (if run == a.run then Subtasks(run, a.task, a.subtasks, newId) else []),
                                a.task, Some(Decomposed), None);
    }
    ToldOne(v, a, c.task, newId, SetFound(v.tasks, c.task, None, None), None, None);
  }

  /** A response that is not awaited changes nothing. Any other consumes its request, tells the task it names
      and moves the rows of the run it names, as its action says. */
  lemma ResponseAnswers(v: View, run: nat, a: Advice, c: Context, newId: nat, now: nat)
    requires RowsOk(v.rows) && TasksOk(v.tasks) && Sees(v, run, a, c, newId)
    ensures var z := OnRecovery(v, run, a, c, newId, now);
            && (!c.pending ==> z == v)
            && (c.pending ==>
              && z.pend == v.pend - {a.request}
              && TasksAfterResponse(v, z, run, a, c, newId) && RowsAfterResponse(v, z, run, a, c, newId, now))
  {
    if c.pending {
      hide RowsOk, TasksOk, TasksAfterResponse, RowsAfterResponse, SetFound, Decide, Locates;
      match a.action {
        case Retry => RetryAnswers(v, run, a, c, newId, now);
        case Decompose => DecomposeAnswers(v, run, a, c, newId, now);
        case Skip => SkipAnswers(v, run, a, c, newId, now);
        case Abort => AbortAnswers(v, run, a, c, newId, now);
      }
    }
  }

  /** Of an honest response: the status of its task afterwards, told from the newest row of the run. */
  lemma HonestAnswer(v: View, run: nat, a: Advice, c: Context, newId: nat, now: nat, k: nat)
    requires Inv(v) && FreshFor(v, newId) && Honest(v, run, a, c) && c.pending
    requires k < |v.tasks| && v.tasks[k].id == a.task
    ensures var z := OnRecovery(v, run, a, c, newId, now);
            && |z.tasks| >= |v.tasks| && z.tasks[k].id == a.task
            && z.tasks[k].status ==
               match a.action
               case Abort => Broken
               case Decompose => Decomposed
               case Skip =>
                 if v.tasks[k].stage == Some(Evaluation) then InProgress
                 else if v.tasks[k].stage == Some(SkillManage) then Done else Broken
               case Retry =>
                 if v.rows == [] || v.tasks[k].stage != Some(v.rows[|v.rows| - 1].stage) then v.tasks[k].status
                 else if v.rows[|v.rows| - 1].retryCount == 3 then Broken else InProgress
  {
    var s := v.tasks[k].stage;
    assert RowsOk(v.rows) && TasksOk(v.tasks);
    FoundById(v.tasks, k);
    OwnLocated(v, a, newId);
    HonestStage(v, a, k);
    hide Inv, FreshFor, TasksOk;
    ResponseAnswers(v, run, a, c, newId, now);
    hide OnRecovery;
    if v.rows != [] && s == Some(Last(v.rows).stage) { assert NewestAt(v.rows, s, |v.rows| - 1); }
  }

  /** The stage of the task is that of the newest row or that of none. */
  lemma HonestStage(v: View, a: Advice, k: nat)
    requires Inv(v) && a.request in Recoveries(v.pend) && v.pend[a.request].task == a.task
    requires k < |v.tasks| && v.tasks[k].id == a.task
    ensures v.rows == [] || v.tasks[k].stage != Some(Last(v.rows).stage) ==> NoneAt(v.rows, v.tasks[k].stage)
  {
    FoundById(v.tasks, k);
    if !Intact(v) { assert v.trail != []; }
  }

  /** No response leaves its task recovering, save a retry that finds no row. */
  lemma NoneLeftRecovering(v: View, run: nat, a: Advice, c: Context, newId: nat, now: nat, k: nat)
    requires Inv(v) && FreshFor(v, newId) && Honest(v, run, a, c) && c.pending
    requires k < |v.tasks| && v.tasks[k].id == a.task
    ensures var z := OnRecovery(v, run, a, c, newId, now);
            && |z.tasks| >= |v.tasks|
            && (z.tasks[k].status == Recovering <==>
                && v.tasks[k].status == Recovering && a.action == Retry
                && forall i :: 0 <= i < |v.rows| ==> Some(v.rows[i].stage) != v.tasks[k].stage)
  {
    HonestAnswer(v, run, a, c, newId, now, k);
    assert a.request in Recoveries(v.pend);
    HonestStage(v, a, k);
    hide Inv, FreshFor, OnRecovery;
    if v.rows != [] { assert Last(v.rows) == v.rows[|v.rows| - 1]; }
  }

  // ── Decomposition results and ticks ────────────────────────────────────────────────────────

  /** A decomposition that is agreed and names subtasks is done in the run that holds the task, and nowhere else. */
  lemma SplitAnswers(v: View, run: nat, request: nat, task: nat, agreed: bool, count: nat, newId: nat, k: nat)
    requires TasksOk(v.tasks) && FreshFor(v, newId) && k < |v.tasks| && v.tasks[k].id == task && v.tasks[k].runId == run
    ensures var z := Step(v, run, Event.Split(request, task, agreed, count, newId));
            && z.rows == v.rows && z.trail == v.trail && z.pend == v.pend - {request}
            && |z.tasks| == |v.tasks| + (if agreed then count else 0)
            && (forall i :: 0 <= i < |v.tasks| ==>
                  z.tasks[i] == if i == k && agreed && count > 0 then v.tasks[i].(status := Decomposed) else v.tasks[i])
            && (forall i :: |v.tasks| <= i < |z.tasks| ==>
                  z.tasks[i] == Task(newId + i - |v.tasks|, run, task, Pending, None))
  {
    FoundById(v.tasks, k);
    assert v.tasks[k] in v.tasks;
    AppendSorted(v.tasks, Subtasks(run, task, count, newId), newId);
    SetAt(v.tasks + Subtasks(run, task, count, newId), k, Some(Decomposed), None);
    hide SetTask, TasksOk, FreshFor;
  }

  lemma SplitElsewhere(v: View, run: nat, request: nat, task: nat, agreed: bool, count: nat, newId: nat)
    requires forall i :: 0 <= i < |v.tasks| ==> v.tasks[i].id != task
    ensures Step(v, run, Event.Split(request, task, agreed, count, newId)) == v.(pend := v.pend - {request})
  {
  }

  /** A row that has run for more than 300 s is closed, and the newest task of its run has failed; otherwise
      nothing changes. */
  lemma TickAnswers(v: View, run: nat, now: nat)
    requires RowsOk(v.rows) && TasksOk(v.tasks)
    ensures var z, n, k := Step(v, run, Tick(now)), |v.rows| - 1, |v.tasks| - 1;
            if n >= 0 && v.rows[n].status == Running && v.rows[n].updatedAt + 300_000_000_000 < now then
              && z.rows == v.rows[n := v.rows[n].(status := TimedOut, updatedAt := now,
                                  outcome := Outcome(v.rows[n].outcome.agent, Some(""), Some("stage timed out")))]
              && z.tasks == (if k >= 0 then v.tasks[k := v.tasks[k].(status := Broken)] else [])
              && z.pend == v.pend && z.trail == v.trail + [Expired(v.rows[n])]
            else z == v
  {
    TickShape(v, run, now);
    hide Step;
    if v.rows != [] && Stale(Last(v.rows), now) {
      PatchAt(v.rows, |v.rows| - 1, Close(TimedOut, Lapse(Last(v.rows))), now);
      if v.tasks != [] { SetAt(v.tasks, |v.tasks| - 1, Some(Broken), None); }
    }
    hide PatchRow, SetTask, RowsOk, TasksOk;
  }

  // ── What one stage hands to the next ───────────────────────────────────────────────────────

  /** The dispatch carries artifact and input of the i-th row; a skipped stage hands over "{}" instead. */
  ghost predicate Carries(rows: seq<Row>, i: int, e: Effect) {
    && 0 <= i < |rows| && e.Next? && e.retry <= rows[i].retryCount
    && e.stage == rows[i].stage && e.artifact == rows[i].artifact
    && e.input == if e.retry == 0 && i > 0 && rows[i - 1].status != Completed then "{}" else rows[i].input
  }

  ghost predicate Carried(rows: seq<Row>, e: Effect) {
    exists i :: Carries(rows, i, e)
  }

  /** The accepted result that closed a row and started the next. */
  ghost predicate Closes(e: Effect, r: Row, next: Row) {
    && e.Accepted? && e.result.status == Completed && e.result.stage == r.stage && e.result.agent == r.outcome.agent
    && e.result.output == next.input && e.result.artifact == next.artifact
  }

  /** A completed row hands over its result and the artifact it came with; a failed evaluation that was
      skipped hands over no artifact. */
  ghost predicate HandsOn(r: Row, next: Row, trail: seq<Effect>) {
    if r.status == Completed then
      r.outcome.result == Some(next.input) && exists k :: 0 <= k < |trail| && Closes(trail[k], r, next)
    else
      r.status == Failed && r.stage == Evaluation && next.stage == SkillManage && next.artifact == ""
  }

  /** A completed stage other than the last is followed by the dispatch of its output. */
  ghost predicate Followed(trail: seq<Effect>, k: int)
    requires 0 <= k < |trail|
  {
    forall next :: trail[k].Accepted? && Hands(trail[k].result, next) ==>
      && k + 1 < |trail| && trail[k + 1].Next? && trail[k + 1].stage == next && trail[k + 1].retry == 0
      && trail[k + 1].artifact == trail[k].result.artifact && trail[k + 1].input == trail[k].result.output
  }

  ghost predicate Handed(rows: seq<Row>, trail: seq<Effect>) {
    && rows != [] && rows[0].stage == Learning && rows[0].artifact == "" && trail != [] && trail[0].Next?
    && (forall i :: 0 <= i < |rows| - 1 ==> HandsOn(rows[i], rows[i + 1], trail))
    && (forall k :: 0 <= k < |trail| && trail[k].Next? ==> Carried(rows, trail[k]))
    && (forall k :: 0 <= k < |trail| ==> Followed(trail, k))
  }

  /** The rows go on: what a row was given stays, only the newest may change its status, others may join. */
  ghost predicate Onwards(a: seq<Row>, b: seq<Row>) {
    && 0 < |a| <= |b|
    && (forall i :: 0 <= i < |a| - 1 ==> b[i] == a[i])
    && (forall i :: 0 <= i < |a| ==>
          b[i].stage == a[i].stage && b[i].artifact == a[i].artifact && b[i].input == a[i].input
          && b[i].retryCount >= a[i].retryCount)
  }

  lemma CarriedOn(a: seq<Row>, b: seq<Row>, e: Effect)
    requires Onwards(a, b) && Carried(a, e)
    ensures Carried(b, e)
  {
    var i :| Carries(a, i, e);
    assert Carries(b, i, e);
  }

  lemma HandsOnStill(r: Row, next: Row, next': Row, trail: seq<Effect>, more: seq<Effect>)
    requires HandsOn(r, next, trail)
    requires next'.stage == next.stage && next'.artifact == next.artifact && next'.input == next.input
    ensures HandsOn(r, next', trail + more)
  {
    if r.status == Completed {
      var k :| 0 <= k < |trail| && Closes(trail[k], r, next);
      assert Closes((trail + more)[k], r, next');
    }
  }

  lemma FollowedStill(trail: seq<Effect>, more: seq<Effect>, k: nat)
    requires k < |trail| && Followed(trail, k)
    ensures Followed(trail + more, k)
  {
  }

  /** The new effects and the new rows are all there is to look at. */
  lemma HandedOnwards(v: View, z: View, more: seq<Effect>)
    requires Handed(v.rows, v.trail) && Onwards(v.rows, z.rows) && z.trail == v.trail + more
    requires forall i :: |v.rows| - 1 <= i < |z.rows| - 1 ==> HandsOn(z.rows[i], z.rows[i + 1], z.trail)
    requires forall k :: 0 <= k < |more| && more[k].Next? ==> Carried(z.rows, more[k])
    requires forall k :: |v.trail| <= k < |z.trail| ==> Followed(z.trail, k)
    ensures Handed(z.rows, z.trail)
  {
    hide HandsOn, Carried, Followed;
    forall i | 0 <= i < |z.rows| - 1 ensures HandsOn(z.rows[i], z.rows[i + 1], z.trail) {
      if i < |v.rows| - 1 { HandsOnStill(v.rows[i], v.rows[i + 1], z.rows[i + 1], v.trail, more); }
    }
    forall k | 0 <= k < |z.trail| ensures Followed(z.trail, k) && (z.trail[k].Next? ==> Carried(z.rows, z.trail[k])) {
      if k < |v.trail| {
        FollowedStill(v.trail, more, k);
        if z.trail[k].Next? { CarriedOn(v.rows, z.rows, z.trail[k]); }
      } else {
        assert z.trail[k] == more[k - |v.trail|];
      }
    }
  }

  lemma ResultHands(v: View, z: View, run: nat, m: StageResult, delivered: bool, id: nat, newId: nat, now: nat)
    requires Handed(v.rows, v.trail) && Awaits(v, m.stage)
    requires RowsAfterResult(v, z, run, m, id, now) && TrailAfterResult(v, z, m, delivered, newId, now)
    ensures Handed(z.rows, z.trail)
  {
    var n := |v.rows| - 1;
    assert forall i :: 0 <= i < n ==> z.rows[i] == z.rows[..n][i] == v.rows[i];
    if m.status == Completed && m.stage != SkillManage {
      HandsIff(m);
      var next := NextStage(m.stage).value;
      assert Hands(m, next);
      hide Handed, Hands, NextStage;
      PassHands(v, z, run, m, next, id, now);
    } else {
      var more := if m.status == Failed && delivered then [Accepted(m), Asked(newId)] else [Accepted(m)];
      forall k | |v.trail| <= k < |z.trail| ensures Followed(z.trail, k) { assert z.trail[k] == more[k - |v.trail|]; }
      hide Handed, Followed;
      HandedOnwards(v, z, more);
    }
  }

  lemma PassHands(v: View, z: View, run: nat, m: StageResult, next: Stage, id: nat, now: nat)
    requires Handed(v.rows, v.trail) && Awaits(v, m.stage) && m.status == Completed && Hands(m, next)
    requires RowsAfterResult(v, z, run, m, id, now)
    requires z.trail == v.trail + [Accepted(m), Next(next, m.artifact, m.output, 0, now)]
    ensures Handed(z.rows, z.trail)
  {
    var n, e := |v.rows| - 1, Next(next, m.artifact, m.output, 0, now);
    var row := Row(id, run, next, m.artifact, m.output, Outcome("", None, None), Running, 0, now);
    assert z.rows[n + 1..] == [row] && z.rows[n + 1] == z.rows[n + 1..][0];
    assert forall i :: 0 <= i < n ==> z.rows[i] == z.rows[..n][i] == v.rows[i];
    assert |z.rows| == n + 2 && ClosedBy(v.rows[n], z.rows[n], m, now);
    assert z.trail[|v.trail|] == Accepted(m) && z.trail[|v.trail| + 1] == e;
    assert Closes(z.trail[|v.trail|], z.rows[n], z.rows[n + 1]);
    assert Carries(z.rows, n + 1, e);
    assert Followed(z.trail, |v.trail|) && Followed(z.trail, |v.trail| + 1);
    hide Handed, Carries, Closes, Followed, RowsAfterResult;
    HandedOnwards(v, z, [Accepted(m), e]);
  }

  lemma RerunHands(v: View, z: View, now: nat)
    requires Handed(v.rows, v.trail) && Rerun(v, z, |v.rows| - 1, now)
    ensures Handed(z.rows, z.trail)
  {
    var e := Last(z.trail);
    assert Carries(z.rows, |v.rows| - 1, e);
    hide Handed, Carries;
    HandedOnwards(v, z, [e]);
  }

  lemma JumpHands(v: View, z: View, run: nat, a: Advice, newId: nat, now: nat)
    requires Handed(v.rows, v.trail) && Jumped(v, z, run, a, newId, now)
    requires v.rows != [] && Last(v.rows).status == Failed && Last(v.rows).stage == Evaluation
    ensures Handed(z.rows, z.trail)
  {
    var e := Last(z.trail);
    assert Carries(z.rows, |v.rows|, e);
    hide Handed, Carries;
    HandedOnwards(v, z, [e]);
  }

  lemma CloseHands(v: View, z: View, e: Effect)
    requires Handed(v.rows, v.trail) && Onwards(v.rows, z.rows) && |z.rows| == |v.rows|
    requires !e.Next? && !e.Accepted? && z.trail == v.trail + [e]
    ensures Handed(z.rows, z.trail)
  {
    assert Followed(z.trail, |v.trail|);
    hide Handed, Onwards, Followed;
    HandedOnwards(v, z, [e]);
  }

  lemma ClosedOnwards(rows: seq<Row>, row: Row)
    requires rows != []
    requires row == Last(rows).(status := row.status, outcome := row.outcome, updatedAt := row.updatedAt)
    ensures Onwards(rows, rows[|rows| - 1 := row])
  {
  }

  lemma TickHands(v: View, run: nat, now: nat)
    requires RowsOk(v.rows) && TasksOk(v.tasks) && Handed(v.rows, v.trail)
    ensures var z := Step(v, run, Tick(now)); Handed(z.rows, z.trail)
  {
    var z := Step(v, run, Tick(now));
    assert v.rows != [];
    hide Step, Handed, RowsOk, TasksOk;
    TickAnswers(v, run, now);
    if z != v {
      var n := |v.rows| - 1;
      ClosedOnwards(v.rows, z.rows[n]);
      CloseHands(v, z, Expired(v.rows[n]));
    }
  }

  /** An honest retry is of the newest row, an honest skip follows a failed evaluation. */
  lemma HonestRows(v: View, z: View, run: nat, a: Advice, c: Context, newId: nat, now: nat)
    requires Inv(v) && Intact(v) && Honest(v, run, a, c) && c.pending && RowsAfterResponse(v, z, run, a, c, newId, now)
    ensures Unmoved(v, z) || Rerun(v, z, |v.rows| - 1, now) || Jumped(v, z, run, a, newId, now)
    ensures Jumped(v, z, run, a, newId, now) ==> Last(v.rows).status == Failed && Last(v.rows).stage == Evaluation
  {
  }

  lemma ResponseHands(v: View, run: nat, a: Advice, c: Context, newId: nat, now: nat)
    requires Inv(v) && Intact(v) && FreshFor(v, newId) && Honest(v, run, a, c) && Handed(v.rows, v.trail)
    ensures var z := OnRecovery(v, run, a, c, newId, now); Handed(z.rows, z.trail)
  {
    var z := OnRecovery(v, run, a, c, newId, now);
    if c.pending {
      assert RowsOk(v.rows) && TasksOk(v.tasks);
      hide OnRecovery;
      OwnLocated(v, a, newId);
      ResponseAnswers(v, run, a, c, newId, now);
      HonestRows(v, z, run, a, c, newId, now);
      hide Inv, Intact, Handed, RowsAfterResponse, Rerun, Jumped, Honest;
      if Rerun(v, z, |v.rows| - 1, now) { RerunHands(v, z, now); }
      else if Jumped(v, z, run, a, newId, now) { JumpHands(v, z, run, a, newId, now); }
    }
  }

  lemma BeginHands(v: View, run: nat, input: string, newId: nat, now: nat)
    requires v.rows == [] && v.trail == []
    ensures var z := Began(v, run, input, newId, now); Handed(z.rows, z.trail)
  {
    var z := Began(v, run, input, newId, now);
    assert z.rows == [FreshRow(newId, run, Learning, "", input, now)] && z.trail == [Next(Learning, "", input, 0, now)];
    assert Carries(z.rows, 0, z.trail[0]);
  }

  lemma ResultHandsStep(v: View, run: nat, m: StageResult, delivered: bool, newId: nat, now: nat)
    requires RowsOk(v.rows) && TasksOk(v.tasks) && FreshFor(v, newId) && (v.trail == [] ==> v.rows == [])
    requires v.trail != [] ==> Handed(v.rows, v.trail)
    ensures var z := OnResult(v, run, m, delivered, newId, now); z.trail != [] ==> Handed(z.rows, z.trail)
  {
    var z := OnResult(v, run, m, delivered, newId, now);
    hide OnResult, RowsOk, TasksOk, FreshFor, Handed;
    hide RowsAfterResult, TrailAfterResult, TasksAfterResult, PendAfterResult;
    ResultAnswers(v, run, m, delivered, newId, now);
    if Awaits(v, m.stage) {
      assert v.rows != [];
      hide Awaits, SubtasksOf;
      ResultHands(v, z, run, m, delivered, newId + SubtasksOf(v, m), newId, now);
    }
  }

  lemma DeleteHands(v: View, run: nat, root: nat)
    requires (v.trail != [] ==> Handed(v.rows, v.trail)) && NoWipe(OnDelete(v, run, root).trail)
    ensures var z := OnDelete(v, run, root); z.trail != [] ==> Handed(z.rows, z.trail)
  {
    TrailSums(v.trail, Wiped(v.rows));
    hide Handed;
  }

  lemma HandedStep(v: View, run: nat, e: Event)
    requires Inv(v) && run != 0 && Allowed(v, run, e) && NoWipe(Step(v, run, e).trail)
    requires v.trail != [] ==> Handed(v.rows, v.trail)
    ensures Step(v, run, e).trail != [] ==> Handed(Step(v, run, e).rows, Step(v, run, e).trail)
  {
    TrailGrows(v, run, e);
    assert RowsOk(v.rows) && TasksOk(v.tasks);
    assert v.trail == [] ==> v.rows == [] && Recoveries(v.pend) == {};
    hide OnResult, OnRecovery, Began, Expire, OnDelete, Handed, RowsOk, TasksOk, Inv, FreshFor, NotBefore, NoWipe;
    match e {
      case Begin(input, newId, now) => BeginHands(v, run, input, newId, now);
      case Result(m, delivered, newId, now) => ResultHandsStep(v, run, m, delivered, newId, now);
      case Recover(a, c, newId, now) =>
        if v.trail != [] { ResponseHands(v, run, a, c, newId, now); }
        else { StillUnbegun(v, run, a, c, newId, now); }
      case Tick(now) => if v.trail != [] { TickHands(v, run, now); } else { NothingToExpire(v, run, now); }
      case Delete(root) => DeleteHands(v, run, root);
      case _ =>
    }
  }

  lemma StillUnbegun(v: View, run: nat, a: Advice, c: Context, newId: nat, now: nat)
    requires Recoveries(v.pend) == {} && Honest(v, run, a, c)
    ensures OnRecovery(v, run, a, c, newId, now) == v
  {
    assert c.pending ==> a.request in Recoveries(v.pend);
  }

  lemma NothingToExpire(v: View, run: nat, now: nat)
    requires v.rows == []
    ensures Step(v, run, Tick(now)) == v
  {
  }

  /** As long as no row has been deleted: the first row is learning with the given input and no artifact;
      what a completed stage produced is the input of the next, with the artifact of the result that was
      accepted for it; and every dispatch carries artifact and input of the row it starts or reopens. */
  lemma {:induction false} HandedOver(run: nat, es: seq<Event>)
    requires run != 0 && AllAllowed(run, es) && NoWipe(Replay(run, es).trail) && Replay(run, es).trail != []
    ensures Handed(Replay(run, es).rows, Replay(run, es).trail)
  {
    if es != [] {
      var v, e := Replay(run, Front(es)), Last(es);
      Reachable(run, Front(es));
      TrailGrows(v, run, e);
      hide Step, Inv, Handed, Allowed;
      if v.trail != [] { HandedOver(run, Front(es)); }
      HandedStep(v, run, e);
    }
  }
}
