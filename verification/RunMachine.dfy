/**
 * One pipeline run seen on its own: the rows, tasks, pending requests and history that carry
 * its run id, and what each event does to them. The tables of `Coordinator` hold all runs at
 * once; its handlers are proved to move every run exactly as `Step` does.
 *
 * Ids are drawn from one growing counter, so an id also stands for its creation stamp and
 * ORDER BY created_at is ORDER BY id. Id 0 is the empty string of the source.
 */
module RunMachine {
  import opened Basics
  import opened Stages

  const MAX_STAGE_RETRIES: nat := 3
  const STAGE_TIMEOUT: nat := 300_000_000_000 // nanoseconds

  datatype RowStatus = Running | Completed | Failed | TimedOut | Other(text: string)
  /** What an update writes beside the status. A row that was never updated has no result and no error. */
  datatype Outcome = Outcome(agent: string, result: Option<string>, error: Option<string>)
  datatype Row = Row(id: nat, runId: nat, stage: Stage, artifact: string, input: string, outcome: Outcome,
                     status: RowStatus, retryCount: nat, updatedAt: nat)

  /** InProgress is "running", Done "completed" and Broken "failed" in the database. */
  datatype TaskStatus = Pending | InProgress | Recovering | Done | Broken | Decomposed
  datatype Task = Task(id: nat, runId: nat, parentId: nat, status: TaskStatus, stage: Option<Stage>)

  datatype Kind = ForRecovery | ForDecompose
  datatype Request = Request(kind: Kind, task: nat)

  /** What has happened to a run so far. Next is an emitted pipeline:next. */
  datatype Effect =
    | Next(stage: Stage, artifact: string, input: string, retry: nat, at: nat)
    | Accepted(result: StageResult)
    | Expired(row: Row)
    | Asked(request: nat)
    | Wiped(rows: seq<Row>)

  datatype View = View(rows: seq<Row>, tasks: seq<Task>, pend: map<nat, Request>, trail: seq<Effect>)

  const EMPTY := View([], [], map[], [])

  // ── Row and task primitives: the UPDATE and SELECT statements of task_db ──────────────────

  datatype Patch = Close(status: RowStatus, outcome: Outcome) | Reopen

  function Patched(row: Row, p: Patch, now: nat): Row {
    match p
    case Close(status, outcome) => row.(status := status, outcome := outcome, updatedAt := now)
    case Reopen => row.(status := Running, retryCount := row.retryCount + 1, updatedAt := now)
  }

  /** UPDATE pipeline_runs ... WHERE id = id */
  function PatchRow(rows: seq<Row>, id: nat, p: Patch, now: nat): (out: seq<Row>)
    ensures |out| == |rows|
    ensures forall i :: 0 <= i < |rows| ==> out[i] == if rows[i].id == id then Patched(rows[i], p, now) else rows[i]
  {
    seq(|rows|, i requires 0 <= i < |rows| => if rows[i].id == id then Patched(rows[i], p, now) else rows[i])
  }

  function FreshRow(id: nat, run: nat, stage: Stage, artifact: string, input: string, now: nat): Row {
    Row(id, run, stage, artifact, input, Outcome("", None, None), Running, 0, now)
  }

  /** UPDATE tasks SET the given columns WHERE id = id */
  function SetTask(tasks: seq<Task>, id: nat, status: Option<TaskStatus>, stage: Option<Stage>): (out: seq<Task>)
    ensures |out| == |tasks|
    ensures forall i :: 0 <= i < |tasks| ==>
      out[i] == if tasks[i].id == id then Edited(tasks[i], status, stage) else tasks[i]
  {
    seq(|tasks|, i requires 0 <= i < |tasks| => if tasks[i].id == id then Edited(tasks[i], status, stage) else tasks[i])
  }

  function Edited(t: Task, status: Option<TaskStatus>, stage: Option<Stage>): Task {
    t.(status := if status.Some? then status.value else t.status, stage := if stage.Some? then stage else t.stage)
  }

  function SetFound(tasks: seq<Task>, t: Option<Task>, status: Option<TaskStatus>, stage: Option<Stage>): seq<Task> {
    if t.Some? then SetTask(tasks, t.value.id, status, stage) else tasks
  }

  function Subtasks(run: nat, parent: nat, count: nat, newId: nat): (out: seq<Task>)
    ensures |out| == count
    ensures forall i :: 0 <= i < count ==> out[i] == Task(newId + i, run, parent, Pending, None)
  {
    seq(count, i requires 0 <= i < count => Task(newId + i, run, parent, Pending, None))
  }

  function Newest(tasks: seq<Task>): Option<Task> {
    if tasks == [] then None else Some(Last(tasks))
  }

  function FindTask(tasks: seq<Task>, id: nat): (t: Option<Task>)
    ensures t.Some? ==> t.value in tasks && t.value.id == id
    ensures t.None? ==> forall x :: x in tasks ==> x.id != id
  {
    if tasks == [] then None
    else if Last(tasks).id == id then Some(Last(tasks))
    else FindTask(Front(tasks), id)
  }

  /** The first row of the stage that is running. */
  function FindRunning(rows: seq<Row>, stage: Stage): (r: Option<Row>)
    ensures r.Some? ==> r.value in rows && r.value.stage == stage && r.value.status == Running
    ensures r.None? ==> forall x :: x in rows ==> x.stage != stage || x.status != Running
  {
    if rows == [] then None
    else
      var r := FindRunning(Front(rows), stage);
      if r.Some? then r
      else if Last(rows).stage == stage && Last(rows).status == Running then Some(Last(rows)) else None
  }

  /** The newest row of the stage. */
  function NewestOf(rows: seq<Row>, stage: Stage): (r: Option<Row>)
    ensures r.Some? ==> r.value in rows && r.value.stage == stage
    ensures r.None? ==> forall x :: x in rows ==> x.stage != stage
  {
    if rows == [] then None
    else if Last(rows).stage == stage then Some(Last(rows))
    else NewestOf(Front(rows), stage)
  }

  /** The j-th row is the newest of the stage; no row is of a stage that is not there. */
  ghost predicate NewestAt(rows: seq<Row>, s: Option<Stage>, j: int) {
    0 <= j < |rows| && Some(rows[j].stage) == s && forall i :: j < i < |rows| ==> Some(rows[i].stage) != s
  }

  ghost predicate NoneAt(rows: seq<Row>, s: Option<Stage>) {
    forall i :: 0 <= i < |rows| ==> Some(rows[i].stage) != s
  }

  /** A row of another stage at the end makes no difference. */
  lemma NewestFront(rows: seq<Row>, s: Stage)
    requires rows != [] && Last(rows).stage != s
    ensures NoneAt(rows, Some(s)) <==> NoneAt(Front(rows), Some(s))
    ensures forall j :: NewestAt(rows, Some(s), j) <==> NewestAt(Front(rows), Some(s), j)
  {
    assert forall i :: 0 <= i < |Front(rows)| ==> Front(rows)[i] == rows[i];
    assert Last(rows) == rows[|rows| - 1];
  }

  lemma {:induction false} NewestPlace(rows: seq<Row>, s: Stage)
    ensures var row := NewestOf(rows, s);
            && (row.None? <==> NoneAt(rows, Some(s)))
            && (row.Some? ==> exists j :: NewestAt(rows, Some(s), j))
            && forall j :: NewestAt(rows, Some(s), j) ==> row == Some(rows[j])
  {
    if rows != [] {
      if Last(rows).stage == s {
        assert NewestAt(rows, Some(s), |rows| - 1);
      } else {
        NewestPlace(Front(rows), s);
        NewestFront(rows, s);
        hide NewestAt, NoneAt;
        if NewestOf(rows, s).Some? {
          var j :| NewestAt(Front(rows), Some(s), j);
          assert NewestAt(rows, Some(s), j);
        }
        forall j | NewestAt(rows, Some(s), j) ensures NewestOf(rows, s) == Some(rows[j]) { PlaceIn(Front(rows), s, j); }
      }
    }
  }

  lemma PlaceIn(rows: seq<Row>, s: Stage, j: int)
    requires NewestAt(rows, Some(s), j)
    ensures 0 <= j < |rows|
  {
  }

  function RetryCountOf(rows: seq<Row>, stage: Option<Stage>): nat {
    if stage.None? then 0
    else
      var row := NewestOf(rows, stage.value);
      if row.Some? then row.value.retryCount else 0
  }

  function IdOf(t: Option<Task>): nat {
    if t.Some? then t.value.id else 0
  }

  function StageOf(t: Option<Task>): Option<Stage> {
    if t.Some? then t.value.stage else None
  }

  // ── Events ─────────────────────────────────────────────────────────────────────────────────

  /** A pipeline:stage_result message; `subtasks` counts the entries of output.subtasks. */
  datatype StageResult = StageResult(stage: Stage, status: RowStatus, agent: string, artifact: string,
                                     output: string, error: Option<string>, subtasks: nat)

  /** What a result and what a timeout write into the row they close. */
  function Answer(m: StageResult): Outcome {
    Outcome(m.agent, Some(m.output), Some(OrElse(m.error, "")))
  }

  function Lapse(row: Row): Outcome {
    Outcome(row.outcome.agent, Some(""), Some("stage timed out"))
  }

  /** Abort stands for every action that is none of the other three. */
  datatype Action = Retry | Decompose | Skip | Abort

  /** An error:recovery_response message; `subtasks` counts the entries of params.subtasks. */
  datatype Advice = Advice(request: nat, run: nat, task: nat, action: Action, params: string, subtasks: nat)

  /** What such a message finds in the shared tables: whether its request is pending, for any run; the
      task it names, of any run; and the rows of the run it names. */
  datatype Context = Context(pending: bool, task: Option<Task>, rows: seq<Row>)

  datatype Event =
    | Begin(input: string, newId: nat, now: nat)
    | Result(msg: StageResult, delivered: bool, newId: nat, now: nat)
    | Recover(advice: Advice, context: Context, newId: nat, now: nat)
    | Ask(task: nat, newId: nat)
    | Split(request: nat, task: nat, agreed: bool, subtasks: nat, newId: nat)
    | Tick(now: nat)
    | Delete(root: nat)
    | Restart

  function Began(v: View, run: nat, input: string, newId: nat, now: nat): View {
    View(v.rows + [FreshRow(newId, run, Learning, "", input, now)],
         v.tasks + [Task(newId + 1, run, 0, InProgress, Some(Learning))],
         v.pend,
         v.trail + [Next(Learning, "", input, 0, now)])
  }

  /** abort_pipeline: only the task is told. */
  function Aborted(v: View, t: Option<Task>): View {
    v.(tasks := SetFound(v.tasks, t, Some(Broken), None))
  }

  function Advanced(v: View, run: nat, t: Option<Task>, status: Option<TaskStatus>, next: Stage,
                    artifact: string, stored: string, sent: string, id: nat, now: nat): View {
    v.(rows := v.rows + [FreshRow(id, run, next, artifact, stored, now)],
       tasks := SetFound(v.tasks, t, status, Some(next)),
       trail := v.trail + [Next(next, artifact, sent, 0, now)])
  }

  function OnFailed(v: View, delivered: bool, newId: nat): View {
    var t := Newest(v.tasks);
    var w := v.(tasks := SetFound(v.tasks, t, Some(Recovering), None));
    if delivered then w.(pend := w.pend[newId := Request(ForRecovery, IdOf(t))], trail := w.trail + [Asked(newId)])
    else Aborted(w, t)
  }

  function OnCompleted(v: View, run: nat, m: StageResult, newId: nat, now: nat): View {
    var t := Newest(v.tasks);
    var count := if m.stage == Evaluation && t.Some? then m.subtasks else 0;
    var w := v.(tasks := v.tasks + Subtasks(run, IdOf(t), count, newId));
    match NextStage(m.stage)
    case Some(next) => Advanced(w, run, t, None, next, m.artifact, m.output, m.output, newId + count, now)
    case None => w.(tasks := SetFound(w.tasks, t, Some(Done), None))
  }

  function OnResult(v: View, run: nat, m: StageResult, delivered: bool, newId: nat, now: nat): View {
    var row := FindRunning(v.rows, m.stage);
    if row.None? then v
    else
      var w := v.(rows := PatchRow(v.rows, row.value.id, Close(m.status, Answer(m)), now),
                  trail := v.trail + [Accepted(m)]);
      match m.status
      case Failed => OnFailed(w, delivered, newId)
      case Completed => OnCompleted(w, run, m, newId, now)
      case _ => w
  }

  /** What the coordinator decides to do with a recovery response. */
  datatype Verdict = GiveUp | Ignore | Again(row: Row) | Divide | Onward(next: Stage) | Finish

  function Decide(rows: seq<Row>, t: Option<Task>, action: Action): Verdict {
    var stage := StageOf(t);
    match action
    case Retry =>
      if RetryCountOf(rows, stage) >= MAX_STAGE_RETRIES then GiveUp
      else if stage.None? || NewestOf(rows, stage.value).None? then Ignore
      else Again(NewestOf(rows, stage.value).value)
    case Decompose => Divide
    case Skip =>
      if stage == Some(Evaluation) || stage == Some(SkillManage) then
        match NextStage(stage.value)
        case Some(next) => Onward(next)
        case None => Finish
      else GiveUp
    case Abort => GiveUp
  }

  /** The effect of a verdict on one run: rows and dispatches belong to the run the message names,
      the task is wherever it is. */
  function Enact(v: View, run: nat, a: Advice, verdict: Verdict, t: Option<Task>, newId: nat, now: nat): View {
    match verdict
    case GiveUp => Aborted(v, t)
    case Ignore => v
    case Again(row) =>
      var w := v.(tasks := SetFound(v.tasks, t, Some(InProgress), None));
      if run == a.run then
        w.(rows := PatchRow(v.rows, row.id, Reopen, now),
           trail := v.trail + [Next(row.stage, row.artifact, row.input, row.retryCount + 1, now)])
      else w
    case Divide =>
      var added := if t.Some? && run == a.run then Subtasks(run, t.value.id, a.subtasks, newId) else [];
      v.(tasks := SetFound(v.tasks + added, t, Some(Decomposed), None))
    case Onward(next) =>
      if run == a.run then Advanced(v, run, t, Some(InProgress), next, "", a.params, "{}", newId, now)
      else v.(tasks := SetFound(v.tasks, t, Some(InProgress), Some(next)))
    case Finish => v.(tasks := SetFound(v.tasks, t, Some(Done), None))
  }

  /** A recovery response, seen from any run: from the run it names, from the run of the task it names,
      from the run whose request it consumes, or from a run it has nothing to do with. */
  function OnRecovery(v: View, run: nat, a: Advice, c: Context, newId: nat, now: nat): View {
    if !c.pending then v
    else Enact(v.(pend := v.pend - {a.request}), run, a, Decide(c.rows, c.task, a.action), c.task, newId, now)
  }

  /** The context of a response about this run alone. */
  function OwnContext(v: View, a: Advice): Context {
    Context(a.request in v.pend, FindTask(v.tasks, a.task), v.rows)
  }

  /** The task part of an accepted decomposition; only the run that owns the task moves. */
  function Divided(v: View, run: nat, t: Option<Task>, agreed: bool, count: nat, newId: nat): View {
    if agreed && count > 0 && t.Some? && t.value.runId == run then
      v.(tasks := SetTask(v.tasks + Subtasks(run, t.value.id, count, newId), t.value.id, Some(Decomposed), None))
    else v
  }

  predicate Stale(row: Row, now: nat) {
    row.status == Running && row.updatedAt < now - STAGE_TIMEOUT
  }

  function StaleRows(rows: seq<Row>, now: nat): seq<Row> {
    if rows == [] then []
    else if Stale(Last(rows), now) then StaleRows(Front(rows), now) + [Last(rows)]
    else StaleRows(Front(rows), now)
  }

  /** Handles the listed rows one after the other, as the monitor's loop does. */
  function Expire(v: View, stale: seq<Row>, now: nat): View
    decreases |stale|
  {
    if stale == [] then v
    else
      var w := Expire(v, Front(stale), now);
      var row := Last(stale);
      w.(rows := PatchRow(w.rows, row.id, Close(TimedOut, Lapse(row)), now),
         tasks := SetFound(w.tasks, Newest(w.tasks), Some(Broken), None),
         trail := w.trail + [Expired(row)])
  }

  /** Neither the deleted task nor a direct child of it. */
  predicate Spared(t: Task, root: nat) {
    t.id != root && t.parentId != root
  }

  function Without(tasks: seq<Task>, root: nat): (out: seq<Task>)
    ensures forall x :: x in out <==> x in tasks && Spared(x, root)
  {
    if tasks == [] then []
    else if Spared(Last(tasks), root) then Without(Front(tasks), root) + [Last(tasks)]
    else Without(Front(tasks), root)
  }

  lemma WithoutAppend(tasks: seq<Task>, x: Task, root: nat)
    ensures Without(tasks + [x], root) == if Spared(x, root) then Without(tasks, root) + [x] else Without(tasks, root)
  {
    assert Front(tasks + [x]) == tasks;
  }

  function OnDelete(v: View, run: nat, root: nat): View {
    var w := v.(tasks := Without(v.tasks, root));
    if run != 0 && FindTask(v.tasks, root).Some? then w.(rows := [], trail := v.trail + [Wiped(v.rows)]) else w
  }

  function Step(v: View, run: nat, e: Event): View {
    match e
    case Begin(input, newId, now) => Began(v, run, input, newId, now)
    case Result(m, delivered, newId, now) => OnResult(v, run, m, delivered, newId, now)
    case Recover(a, c, newId, now) => OnRecovery(v, run, a, c, newId, now)
    case Ask(task, newId) => v.(pend := v.pend[newId := Request(ForDecompose, task)])
    case Split(request, task, agreed, count, newId) =>
      Divided(v.(pend := v.pend - {request}), run, FindTask(v.tasks, task), agreed, count, newId)
    case Tick(now) => Expire(v, StaleRows(v.rows, now), now)
    case Delete(root) => OnDelete(v, run, root)
    case Restart => v.(pend := map[])
  }

  // ── What the environment may do ────────────────────────────────────────────────────────────

  /** New ids lie above every id the run has. */
  ghost predicate FreshFor(v: View, newId: nat) {
    && 0 < newId
    && (forall x :: x in v.rows ==> x.id < newId)
    && (forall x :: x in v.tasks ==> x.id < newId)
    && (forall q :: q in v.pend ==> q < newId)
  }

  /** The clock does not run backwards. */
  ghost predicate NotBefore(v: View, now: nat) {
    forall x :: x in v.rows ==> x.updatedAt <= now
  }

  /** A recovery response that consumes a request answers a recovery request of this run, and echoes its
      run and task. */
  ghost predicate Honest(v: View, run: nat, a: Advice, c: Context) {
    c.pending ==>
      && a.request in v.pend && v.pend[a.request] == Request(ForRecovery, a.task)
      && a.run == run && c == OwnContext(v, a)
  }

  /** Assumptions on one event: fresh ids, a monotone clock, honest recovery responses, a deleted
      task is named by a non-empty id. Nothing is assumed of decomposition results. */
  ghost predicate Allowed(v: View, run: nat, e: Event) {
    match e
    case Begin(_, newId, _) => v.rows == [] && v.tasks == [] && v.trail == [] && 0 < newId
    case Result(_, _, newId, now) => FreshFor(v, newId) && NotBefore(v, now)
    case Recover(a, c, newId, now) => FreshFor(v, newId) && NotBefore(v, now) && Honest(v, run, a, c)
    case Ask(task, newId) => FreshFor(v, newId)
    case Split(_, _, _, _, newId) => FreshFor(v, newId)
    case Tick(now) => NotBefore(v, now)
    case Delete(root) => root != 0
    case Restart => true
  }

  function Replay(run: nat, es: seq<Event>): View {
    if es == [] then EMPTY else Step(Replay(run, Front(es)), run, Last(es))
  }

  ghost predicate AllAllowed(run: nat, es: seq<Event>) {
    es == [] || (AllAllowed(run, Front(es)) && Allowed(Replay(run, Front(es)), run, Last(es)))
  }

  /** Some allowed history of the run ends in this state. */
  ghost predicate Reached(run: nat, v: View) {
    exists es :: AllAllowed(run, es) && Replay(run, es) == v
  }

  lemma ReachedStep(run: nat, v: View, e: Event)
    requires Reached(run, v) && Allowed(v, run, e)
    ensures Reached(run, Step(v, run, e))
  {
    var es :| AllAllowed(run, es) && Replay(run, es) == v;
    hide Allowed, Step;
    assert Front(es + [e]) == es && Last(es + [e]) == e;
    assert Replay(run, es + [e]) == Step(v, run, e);
  }

  lemma EmptyReached(run: nat)
    ensures Reached(run, EMPTY)
  {
    assert AllAllowed(run, []) && Replay(run, []) == EMPTY;
  }

  /** A run that does not exist yet is moved only by its start and by requests made for it. */
  lemma StepEmpty(run: nat, e: Event)
    requires !e.Begin? && !e.Ask? && (e.Recover? ==> Honest(EMPTY, run, e.advice, e.context))
    ensures Step(EMPTY, run, e) == EMPTY
  {
  }
}
