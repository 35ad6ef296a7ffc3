/** The inductive invariant of a single run, and its preservation by every allowed event. */
module RunInvariants {
  import opened Basics
  import opened Stages
  import opened RunMachine

  // ── Rows and pending requests ──────────────────────────────────────────────────────────────

  ghost predicate RowsOk(rows: seq<Row>) {
    && (forall i, j :: 0 <= i < j < |rows| ==> rows[i].id < rows[j].id && Rank(rows[i].stage) < Rank(rows[j].stage))
    && (forall i :: 0 <= i < |rows| - 1 ==> rows[i].status != Running)
    && (forall i :: 0 <= i < |rows| ==> rows[i].retryCount <= MAX_STAGE_RETRIES)
  }

  /** The requests that wait for a recovery response. */
  function Recoveries(pend: map<nat, Request>): set<nat> {
    set q | q in pend && pend[q].kind == ForRecovery
  }

  /** At most one recovery is pending, and then the newest row has failed. */
  ghost predicate RequestsOk(v: View) {
    && (forall q, r :: q in Recoveries(v.pend) && r in Recoveries(v.pend) ==> q == r)
    && (Recoveries(v.pend) != {} && v.rows != [] ==> Last(v.rows).status == Failed)
  }

  // ── Tasks and their stages ─────────────────────────────────────────────────────────────────

  /** No row of the run has been deleted yet. */
  predicate NoWipe(trail: seq<Effect>) {
    trail == [] || (NoWipe(Front(trail)) && !Last(trail).Wiped?)
  }

  ghost predicate Intact(v: View) {
    v.trail != [] && NoWipe(v.trail)
  }

  ghost predicate TasksOk(tasks: seq<Task>) {
    && (forall i, j :: 0 <= i < j < |tasks| ==> tasks[i].id < tasks[j].id)
    && (forall i :: 0 <= i < |tasks| ==> tasks[i].parentId < tasks[i].id)
  }

  ghost predicate OneHolder(tasks: seq<Task>, s: Stage) {
    forall i, j :: 0 <= i < j < |tasks| ==> !(tasks[i].stage == Some(s) && tasks[j].stage == Some(s))
  }

  ghost predicate StageAtMost(t: Task, s: Stage) {
    t.stage.Some? ==> Rank(t.stage.value) <= Rank(s)
  }

  ghost predicate Parented(tasks: seq<Task>, t: Task) {
    t.parentId == 0 || exists i :: 0 <= i < |tasks| && tasks[i].id == t.parentId
  }

  function StageById(tasks: seq<Task>, id: nat): Option<Stage> {
    StageOf(FindTask(tasks, id))
  }

  /** While no row has been deleted: the newest task carries no stage or the newest row's, no
      stage has two holders, no task of the run has gone, and the task of a pending recovery
      carries no stage or that of the failed newest row. */
  ghost predicate CoupledIntact(v: View) {
    && v.rows != [] && v.tasks != []
    && (forall i :: 0 <= i < |v.tasks| ==> StageAtMost(v.tasks[i], Last(v.rows).stage))
    && (forall s: Stage :: OneHolder(v.tasks, s))
    && (Last(v.tasks).stage == None || Last(v.tasks).stage == Some(Last(v.rows).stage))
    && (forall i {:trigger Parented(v.tasks, v.tasks[i])} :: 0 <= i < |v.tasks| ==> Parented(v.tasks, v.tasks[i]))
    && (forall q :: q in Recoveries(v.pend) ==>
          StageById(v.tasks, v.pend[q].task) in {None, Some(Last(v.rows).stage)})
  }

  /** Once rows have been deleted only a skipped evaluation can still add one. */
  ghost predicate CoupledWiped(v: View) {
    && (v.rows == [] || (|v.rows| == 1 && v.rows[0].stage == SkillManage))
    && OneHolder(v.tasks, Evaluation)
    && (v.rows != [] ==> forall i :: 0 <= i < |v.tasks| ==> v.tasks[i].stage != Some(Evaluation))
  }

  ghost predicate Coupled(v: View) {
    if v.trail == [] then v.rows == [] && v.tasks == [] && Recoveries(v.pend) == {}
    else if Intact(v) then CoupledIntact(v)
    else CoupledWiped(v)
  }

  // ── Accounts ───────────────────────────────────────────────────────────────────────────────

  datatype Meter = Sent | Answered | Expiries | Lost | LostOpen

  function Weight(rows: seq<Row>): nat {
    if rows == [] then 0 else Weight(Front(rows)) + 1 + Last(rows).retryCount
  }

  function Open(rows: seq<Row>): nat {
    if rows == [] then 0 else Open(Front(rows)) + if Last(rows).status == Running then 1 else 0
  }

  function Weigh(e: Effect, k: Meter): nat {
    match (k, e)
    case (Sent, Next(_, _, _, _, _)) => 1
    case (Answered, Accepted(m)) => if m.status == Running then 0 else 1
    case (Expiries, Expired(_)) => 1
    case (Lost, Wiped(rows)) => Weight(rows)
    case (LostOpen, Wiped(rows)) => Open(rows)
    case _ => 0
  }

  function Total(trail: seq<Effect>, k: Meter): nat {
    if trail == [] then 0 else Total(Front(trail), k) + Weigh(Last(trail), k)
  }

  /** Every dispatch is a row or one of its retries, and every dispatch has been answered, has
      expired, is still open or was deleted while open. */
  ghost predicate Books(v: View) {
    && Total(v.trail, Sent) == Weight(v.rows) + Total(v.trail, Lost)
    && Total(v.trail, Sent) ==
       Total(v.trail, Answered) + Total(v.trail, Expiries) + Open(v.rows) + Total(v.trail, LostOpen)
  }

  ghost predicate Budget(v: View) {
    && Total(v.trail, Sent) <= 20
    && (v.rows != [] ==> Total(v.trail, Sent) <= 4 * Rank(Last(v.rows).stage) + Last(v.rows).retryCount + 1)
    && (v.rows == [] ==>
          forall q :: q in Recoveries(v.pend) && StageById(v.tasks, v.pend[q].task) == Some(Evaluation) ==>
          Total(v.trail, Sent) <= 16)
  }

  /** When the run was last dispatched. */
  function LastSent(trail: seq<Effect>): nat {
    if trail == [] then 0
    else if Last(trail).Next? then Last(trail).at
    else LastSent(Front(trail))
  }

  ghost predicate OnTime(v: View) {
    v.rows != [] && Last(v.rows).status == Running ==> LastSent(v.trail) <= Last(v.rows).updatedAt
  }

  // ── Main task and newest row ───────────────────────────────────────────────────────────────

  /** A row closed by a result that is neither completed nor failed; no task is told. */
  predicate Silent(s: RowStatus) {
    s.TimedOut? || s.Other?
  }

  predicate Agree(row: Row, t: Task) {
    match t.status
    case InProgress => row.status == Running || Silent(row.status)
    case Recovering => row.status == Failed
    case Decomposed => row.status == Failed
    case Done => row.stage == SkillManage && (row.status == Completed || row.status == Failed)
    case Broken => row.status == Failed || row.status == TimedOut
    case Pending => false
  }

  /** A run that still holds only its main task. */
  ghost predicate Alone(v: View) {
    Intact(v) && |v.tasks| == 1
  }

  ghost predicate Agreement(v: View) {
    Alone(v) && v.rows != [] ==>
      && Agree(Last(v.rows), v.tasks[0])
      && (Last(v.rows).status == Running ==> v.tasks[0].status == InProgress)
      && (Recoveries(v.pend) != {} ==> v.tasks[0].status == Recovering)
  }

  ghost predicate Accounts(v: View) {
    Books(v) && Budget(v) && OnTime(v)
  }

  /** Everything but the requests and the agreement with the main task. */
  ghost predicate Core(v: View) {
    RowsOk(v.rows) && TasksOk(v.tasks) && Coupled(v) && Accounts(v)
  }

  ghost predicate Inv(v: View) {
    Core(v) && RequestsOk(v) && Agreement(v)
  }

  // ── Small facts ────────────────────────────────────────────────────────────────────────────

  lemma PatchLast(rows: seq<Row>, p: Patch, now: nat)
    requires RowsOk(rows) && rows != []
    ensures PatchRow(rows, Last(rows).id, p, now) == Front(rows) + [Patched(Last(rows), p, now)]
  {
  }

  lemma RunningIsLast(rows: seq<Row>, stage: Stage)
    requires RowsOk(rows) && FindRunning(rows, stage).Some?
    ensures rows != [] && FindRunning(rows, stage).value == Last(rows)
  {
    var row := FindRunning(rows, stage).value;
    var i :| 0 <= i < |rows| && rows[i] == row;
  }

  lemma RowSums(rows: seq<Row>, x: Row)
    ensures Weight(rows + [x]) == Weight(rows) + 1 + x.retryCount
    ensures Open(rows + [x]) == Open(rows) + if x.status == Running then 1 else 0
  {
    assert Front(rows + [x]) == rows;
  }

  lemma TrailSums(trail: seq<Effect>, e: Effect)
    ensures forall k :: Total(trail + [e], k) == Total(trail, k) + Weigh(e, k)
    ensures NoWipe(trail + [e]) <==> NoWipe(trail) && !e.Wiped?
    ensures LastSent(trail + [e]) == if e.Next? then e.at else LastSent(trail)
  {
    assert Front(trail + [e]) == trail;
  }

  lemma FoundById(tasks: seq<Task>, i: nat)
    requires TasksOk(tasks) && i < |tasks|
    ensures FindTask(tasks, tasks[i].id) == Some(tasks[i])
  {
  }

  // ── Accounts, one entry at a time ──────────────────────────────────────────────────────────

  /** The running row is closed, by a result or by a timeout; where every branch of both starts. */
  ghost predicate Closed(v: View, w: View, status: RowStatus, outcome: Outcome, e: Effect, now: nat) {
    && v.rows != [] && Last(v.rows).status == Running
    && ((e.Accepted? && e.result.status == status) || (e.Expired? && status == TimedOut))
    && w == v.(rows := Front(v.rows) + [Patched(Last(v.rows), Close(status, outcome), now)], trail := v.trail + [e])
  }

  lemma ReplaceLast(rows: seq<Row>, x: Row)
    requires rows != []
    ensures Weight(Front(rows) + [x]) + Last(rows).retryCount == Weight(rows) + x.retryCount
    ensures Open(Front(rows) + [x]) + (if Last(rows).status == Running then 1 else 0) ==
            Open(rows) + if x.status == Running then 1 else 0
  {
    RowSums(Front(rows), x);
    assert rows == Front(rows) + [Last(rows)];
    RowSums(Front(rows), Last(rows));
  }

  lemma ClosedAccounts(v: View, w: View, status: RowStatus, outcome: Outcome, e: Effect, now: nat)
    requires RowsOk(v.rows) && Accounts(v) && Closed(v, w, status, outcome, e, now) && NotBefore(v, now)
    ensures RowsOk(w.rows) && Accounts(w)
  {
    assert Last(v.rows) in v.rows && Last(v.rows).updatedAt <= now;
    assert Last(w.rows) == Patched(Last(v.rows), Close(status, outcome), now);
    ReplaceLast(v.rows, Last(w.rows));
    TrailSums(v.trail, e);
    hide NotBefore;
    assert RowsOk(w.rows);
    hide RowsOk, Weight, Open, Total, LastSent;
  }

  /** A further entry that is neither a dispatch nor a settlement changes no account; tasks and
      requests are free as long as the run has rows. */
  lemma NoteAccounts(w: View, z: View, e: Effect)
    requires Accounts(w) && w.rows != [] && z.rows == w.rows
    requires z.trail == w.trail || z.trail == w.trail + [e]
    requires e.Asked?
    ensures Accounts(z)
  {
    TrailSums(w.trail, e);
  }

  lemma SentAccounts(w: View, z: View, row: Row, e: Effect)
    requires RowsOk(w.rows) && Accounts(w) && Open(w.rows) == 0
    requires row.status == Running && row.retryCount == 0 && e.Next? && e.at == row.updatedAt
    requires z.rows == w.rows + [row] && z.trail == w.trail + [e]
    requires w.rows != [] ==> Rank(row.stage) > Rank(Last(w.rows).stage)
    requires w.rows == [] ==> Total(w.trail, Sent) <= 4 * Rank(row.stage)
    ensures Accounts(z)
  {
    RowSums(w.rows, row);
    TrailSums(w.trail, e);
    assert Last(z.rows) == row;
    if w.rows != [] { assert Last(w.rows) in w.rows; }
  }

  // ── Coupling ───────────────────────────────────────────────────────────────────────────────

  /** The same tasks up to their status, followed by new unstaged ones. */
  ghost predicate Extended(ts: seq<Task>, us: seq<Task>) {
    && |ts| <= |us|
    && (forall i :: 0 <= i < |ts| ==>
          us[i].id == ts[i].id && us[i].stage == ts[i].stage && us[i].parentId == ts[i].parentId)
    && (forall i :: |ts| <= i < |us| ==> us[i].stage == None)
  }

  /** The new ones are subtasks of the others. */
  ghost predicate Grown(ts: seq<Task>, us: seq<Task>) {
    Extended(ts, us) && forall i {:trigger Parented(ts, us[i])} :: |ts| <= i < |us| ==> Parented(ts, us[i])
  }

  lemma {:induction false} GrownFind(ts: seq<Task>, us: seq<Task>, q: nat)
    requires Extended(ts, us)
    ensures StageById(us, q) in {None, StageById(ts, q)}
  {
    if us != [] {
      if |us| > |ts| {
        GrownFind(ts, Front(us), q);
      } else if Last(us).id != q {
        assert Extended(Front(ts), Front(us));
        GrownFind(Front(ts), Front(us), q);
      }
    }
  }

  /** Status edits, new subtasks and the loss of a request or its birth for the newest task keep
      the coupling. */
  lemma CoupledGrown(v: View, z: View)
    requires TasksOk(v.tasks) && Coupled(v) && v.trail != []
    requires Grown(v.tasks, z.tasks) && TasksOk(z.tasks) && |v.rows| == |z.rows|
    requires forall i :: 0 <= i < |v.rows| ==> v.rows[i].stage == z.rows[i].stage
    requires z.trail != [] && Intact(v) == Intact(z)
    requires forall q :: q in Recoveries(z.pend) ==>
      || (q in Recoveries(v.pend) && z.pend[q] == v.pend[q])
      || z.pend[q].task == IdOf(Newest(v.tasks))
    ensures Coupled(z)
  {
    if Intact(v) {
      hide Intact, CoupledWiped;
      assert Last(v.rows).stage == Last(z.rows).stage;
      GrownRequests(v, z);
      GrownTasks(v.tasks, z.tasks);
    }
  }

  lemma GrownTasks(ts: seq<Task>, us: seq<Task>)
    requires Grown(ts, us) && TasksOk(us)
    requires forall i {:trigger Parented(ts, ts[i])} :: 0 <= i < |ts| ==> Parented(ts, ts[i])
    requires forall s: Stage :: OneHolder(ts, s)
    ensures forall i {:trigger Parented(us, us[i])} :: 0 <= i < |us| ==> Parented(us, us[i])
    ensures forall s: Stage :: OneHolder(us, s)
  {
    forall i | 0 <= i < |us| ensures Parented(us, us[i]) {
      assert if i < |ts| then Parented(ts, ts[i]) else Parented(ts, us[i]);
      if us[i].parentId != 0 {
        var k :| 0 <= k < |ts| && ts[k].id == us[i].parentId;
        assert us[k].id == us[i].parentId;
      }
    }
    forall s: Stage ensures OneHolder(us, s) {
      assert OneHolder(ts, s);
    }
  }

  lemma GrownRequests(v: View, z: View)
    requires TasksOk(v.tasks) && CoupledIntact(v) && Grown(v.tasks, z.tasks)
    requires forall q :: q in Recoveries(z.pend) ==>
      || (q in Recoveries(v.pend) && z.pend[q] == v.pend[q])
      || z.pend[q].task == IdOf(Newest(v.tasks))
    ensures forall q :: q in Recoveries(z.pend) ==>
      StageById(z.tasks, z.pend[q].task) in {None, Some(Last(v.rows).stage)}
  {
    forall q | q in Recoveries(z.pend)
      ensures StageById(z.tasks, z.pend[q].task) in {None, Some(Last(v.rows).stage)}
    {
      GrownFind(v.tasks, z.tasks, z.pend[q].task);
      FoundById(v.tasks, |v.tasks| - 1);
    }
  }

  // ── Stage results ──────────────────────────────────────────────────────────────────────────

  lemma FailedEffect(w: View, delivered: bool, newId: nat)
    requires w.rows != [] && Last(w.rows).status == Failed && Recoveries(w.pend) == {}
    ensures var z := OnFailed(w, delivered, newId);
            && z.rows == w.rows && Grown(w.tasks, z.tasks) && |z.tasks| == |w.tasks|
            && (z.trail == w.trail || z.trail == w.trail + [Asked(newId)])
            && (forall q :: q in Recoveries(z.pend) ==> q == newId && z.pend[q].task == IdOf(Newest(w.tasks)))
            && RequestsOk(z) && Agreement(z)
  {
    var z := OnFailed(w, delivered, newId);
    if w.tasks != [] {
      assert Last(z.tasks).status == if delivered then Recovering else Broken;
    }
    if delivered {
      assert forall q :: q in w.pend ==> q !in Recoveries(w.pend);
    }
  }

  lemma ClosedCore(v: View, w: View, status: RowStatus, outcome: Outcome, e: Effect, now: nat)
    requires Core(v) && RequestsOk(v) && Closed(v, w, status, outcome, e, now) && NotBefore(v, now)
    ensures Core(w) && Recoveries(w.pend) == {} && Alone(v) == Alone(w)
  {
    assert Intact(v) == Intact(w) && v.trail != [] by { TrailSums(v.trail, e); }
    assert RowsOk(w.rows) && Accounts(w) by { ClosedAccounts(v, w, status, outcome, e, now); }
    assert Coupled(w) by { CoupledGrown(v, w); }
  }

  lemma FailedKeeps(w: View, delivered: bool, newId: nat)
    requires Core(w) && w.rows != [] && w.trail != [] && Last(w.rows).status == Failed && Recoveries(w.pend) == {}
    ensures Inv(OnFailed(w, delivered, newId))
  {
    var z := OnFailed(w, delivered, newId);
    FailedEffect(w, delivered, newId);
    TrailSums(w.trail, Asked(newId));
    NoteAccounts(w, z, Asked(newId));
    CoupledGrown(w, z);
  }

  /** Moving the holder of the newest row's stage, or the newest task, on to a later stage. */
  lemma AdvanceCoupled(w: View, z: View, k: nat, next: Stage)
    requires TasksOk(w.tasks) && CoupledIntact(w) && k < |w.tasks| <= |z.tasks|
    requires k == |w.tasks| - 1 || w.tasks[k].stage == Some(Last(w.rows).stage)
    requires z.rows != [] && Last(z.rows).stage == next && Rank(Last(w.rows).stage) < Rank(next)
    requires TasksOk(z.tasks) && Recoveries(z.pend) == {} && Moved(w.tasks, z.tasks, k, next)
    ensures CoupledIntact(z)
  {
    hide TasksOk;
    forall i | 0 <= i < |z.tasks| ensures Parented(z.tasks, z.tasks[i]) {
      if i < |w.tasks| {
        assert Parented(w.tasks, w.tasks[i]);
      } else {
        assert z.tasks[k].id == z.tasks[i].parentId;
      }
    }
    forall s: Stage ensures OneHolder(z.tasks, s) {
      assert OneHolder(w.tasks, s);
      assert forall i :: 0 <= i < |w.tasks| ==> StageAtMost(w.tasks[i], Last(w.rows).stage);
    }
    if k != |w.tasks| - 1 && |z.tasks| == |w.tasks| {
      assert OneHolder(w.tasks, Last(w.rows).stage);
    }
  }

  /** With the newest row closed no row is open. */
  lemma {:induction false} ClosedOpen(rows: seq<Row>)
    requires forall i :: 0 <= i < |rows| ==> rows[i].status != Running
    ensures Open(rows) == 0
  {
    if rows != [] { ClosedOpen(Front(rows)); }
  }

  /** The tasks after the task at k was moved to the next stage and some subtasks of it were added. */
  ghost predicate Moved(ts: seq<Task>, us: seq<Task>, k: nat, next: Stage) {
    && k < |ts| <= |us|
    && (forall i :: 0 <= i < |ts| ==>
          && us[i].id == ts[i].id && us[i].parentId == ts[i].parentId
          && us[i].stage == if i == k then Some(next) else ts[i].stage)
    && (forall i :: |ts| <= i < |us| ==> us[i].stage == None && us[i].parentId == ts[k].id)
  }

  /** Dispatching the next stage of a run all of whose rows are closed. */
  lemma AdvanceKeeps(w: View, z: View, k: nat, row: Row, e: Effect)
    requires Core(w) && Intact(w) && Last(w.rows).status != Running
    requires z.rows == w.rows + [row] && z.trail == w.trail + [e] && Recoveries(z.pend) == {}
    requires row.status == Running && row.retryCount == 0 && e.Next? && e.at == row.updatedAt
    requires NextStage(Last(w.rows).stage) == Some(row.stage) && Last(w.rows).id < row.id
    requires Moved(w.tasks, z.tasks, k, row.stage) && TasksOk(z.tasks)
    requires k == |w.tasks| - 1 || w.tasks[k].stage == Some(Last(w.rows).stage)
    requires |z.tasks| == 1 ==> z.tasks[0].status == InProgress
    ensures Inv(z)
  {
    TrailSums(w.trail, e);
    ClosedOpen(w.rows);
    SentAccounts(w, z, row, e);
    AdvanceCoupled(w, z, k, row.stage);
  }

  lemma CompletedMoves(w: View, run: nat, m: StageResult, newId: nat, now: nat)
    requires TasksOk(w.tasks) && w.tasks != [] && NextStage(m.stage).Some? && FreshFor(w, newId)
    ensures var z := OnCompleted(w, run, m, newId, now);
            && Moved(w.tasks, z.tasks, |w.tasks| - 1, NextStage(m.stage).value) && TasksOk(z.tasks)
            && z.tasks[|w.tasks| - 1].status == Last(w.tasks).status
  {
    var count := if m.stage == Evaluation then m.subtasks else 0;
    var next := NextStage(m.stage).value;
    assert OnCompleted(w, run, m, newId, now).tasks ==
      SetTask(w.tasks + Subtasks(run, Last(w.tasks).id, count, newId), Last(w.tasks).id, None, Some(next));
    assert forall x :: x in w.tasks ==> x.id < newId;
    hide FreshFor;
    hide OnCompleted;
    AppendMoves(w.tasks, run, count, newId, next);
  }

  lemma AppendMoves(ts: seq<Task>, run: nat, count: nat, newId: nat, next: Stage)
    requires TasksOk(ts) && ts != [] && forall x :: x in ts ==> x.id < newId
    ensures var us := SetTask(ts + Subtasks(run, Last(ts).id, count, newId), Last(ts).id, None, Some(next));
            Moved(ts, us, |ts| - 1, next) && TasksOk(us) && us[|ts| - 1].status == Last(ts).status
  {
    assert Last(ts) in ts;
    AppendSorted(ts, Subtasks(run, Last(ts).id, count, newId), newId);
  }

  lemma AppendSorted(ts: seq<Task>, added: seq<Task>, newId: nat)
    requires TasksOk(ts) && 0 < newId && (forall x :: x in ts ==> x.id < newId)
    requires forall i :: 0 <= i < |added| ==> added[i].id == newId + i && added[i].parentId < newId
    ensures TasksOk(ts + added)
    ensures forall i :: 0 <= i < |ts| ==> ts[i].id < newId
  {
    forall i | 0 <= i < |ts| ensures ts[i].id < newId {
      assert ts[i] in ts;
    }
  }

  /** The last stage has completed: the newest task is told. */
  lemma FinishKeeps(w: View, run: nat, m: StageResult, newId: nat, now: nat)
    requires Core(w) && w.rows != [] && w.trail != [] && Recoveries(w.pend) == {}
    requires Last(w.rows).status == Completed && Last(w.rows).stage == m.stage == SkillManage
    ensures Inv(OnCompleted(w, run, m, newId, now))
  {
    var z := OnCompleted(w, run, m, newId, now);
    assert TasksOk(w.tasks);
    hide Core;
    assert z == w.(tasks := SetFound(w.tasks, Newest(w.tasks), Some(Done), None));
    assert Grown(w.tasks, z.tasks) && (Alone(z) ==> z.tasks[0].status == Done);
    hide Grown;
    SettleKeeps(w, z);
  }

  lemma CompletedKeeps(w: View, run: nat, m: StageResult, newId: nat, now: nat)
    requires Core(w) && w.rows != [] && w.trail != [] && Recoveries(w.pend) == {}
    requires Last(w.rows).status == Completed && Last(w.rows).stage == m.stage
    requires Alone(w) ==> w.tasks[0].status == InProgress
    requires FreshFor(w, newId)
    ensures Inv(OnCompleted(w, run, m, newId, now))
  {
    if m.stage == SkillManage {
      hide Core;
      FinishKeeps(w, run, m, newId, now);
    } else {
      var z := OnCompleted(w, run, m, newId, now);
      assert Intact(w) && w.tasks != [] && TasksOk(w.tasks);
      hide Core, TasksOk;
      assert Last(w.rows) in w.rows;
      var row, e := Last(z.rows), Last(z.trail);
      assert z.rows == w.rows + [row] && z.trail == w.trail + [e] && Last(w.rows).id < row.id;
      CompletedMoves(w, run, m, newId, now);
      hide Moved, FreshFor;
      AdvanceKeeps(w, z, |w.tasks| - 1, row, e);
    }
  }

  lemma SilentKeeps(v: View, w: View, m: StageResult, now: nat)
    requires Inv(v) && Closed(v, w, m.status, Answer(m), Accepted(m), now) && NotBefore(v, now)
    requires m.status != Failed && m.status != Completed
    ensures Inv(w)
  {
    ClosedCore(v, w, m.status, Answer(m), Accepted(m), now);
    hide Core;
  }

  lemma ResultCloses(v: View, m: StageResult, now: nat)
    requires RowsOk(v.rows) && FindRunning(v.rows, m.stage).Some?
    ensures Closed(v, Recorded(v, m, now), m.status, Answer(m), Accepted(m), now)
    ensures Last(v.rows).stage == m.stage
  {
    RunningIsLast(v.rows, m.stage);
    PatchLast(v.rows, Close(m.status, Answer(m)), now);
  }

  /** The state after update_pipeline_stage, before the status is acted on. */
  function Recorded(v: View, m: StageResult, now: nat): View
    requires FindRunning(v.rows, m.stage).Some?
  {
    v.(rows := PatchRow(v.rows, FindRunning(v.rows, m.stage).value.id, Close(m.status, Answer(m)), now),
       trail := v.trail + [Accepted(m)])
  }

  lemma FailureKeeps(v: View, run: nat, m: StageResult, delivered: bool, newId: nat, now: nat)
    requires Inv(v) && NotBefore(v, now) && m.status == Failed && FindRunning(v.rows, m.stage).Some?
    ensures Inv(OnResult(v, run, m, delivered, newId, now))
  {
    var w := Recorded(v, m, now);
    assert OnResult(v, run, m, delivered, newId, now) == OnFailed(w, delivered, newId);
    assert Core(v) && RequestsOk(v);
    ResultCloses(v, m, now);
    assert w.rows != [] && w.trail != [] && Last(w.rows).status == Failed;
    hide *;
    ClosedCore(v, w, m.status, Answer(m), Accepted(m), now);
    FailedKeeps(w, delivered, newId);
  }

  lemma CompletionKeeps(v: View, run: nat, m: StageResult, delivered: bool, newId: nat, now: nat)
    requires Inv(v) && FreshFor(v, newId) && NotBefore(v, now)
    requires m.status == Completed && FindRunning(v.rows, m.stage).Some?
    ensures Inv(OnResult(v, run, m, delivered, newId, now))
  {
    var w := Recorded(v, m, now);
    assert OnResult(v, run, m, delivered, newId, now) == OnCompleted(w, run, m, newId, now);
    assert Core(v) && RequestsOk(v) && (Alone(v) ==> w.tasks[0].status == InProgress);
    ResultCloses(v, m, now);
    assert w.rows != [] && w.trail != [] && Last(w.rows).status == Completed && Last(w.rows).stage == m.stage;
    assert FreshFor(w, newId) by {
      assert forall i :: 0 <= i < |w.rows| ==> w.rows[i].id == v.rows[i].id && v.rows[i] in v.rows;
    }
    hide *;
    ClosedCore(v, w, m.status, Answer(m), Accepted(m), now);
    CompletedKeeps(w, run, m, newId, now);
  }

  lemma ResultKeeps(v: View, run: nat, m: StageResult, delivered: bool, newId: nat, now: nat)
    requires Inv(v) && FreshFor(v, newId) && NotBefore(v, now)
    ensures Inv(OnResult(v, run, m, delivered, newId, now))
  {
    hide Coupled, Books, Budget;
    if FindRunning(v.rows, m.stage).None? {
      assert OnResult(v, run, m, delivered, newId, now) == v;
    } else if m.status == Failed {
      FailureKeeps(v, run, m, delivered, newId, now);
    } else if m.status == Completed {
      CompletionKeeps(v, run, m, delivered, newId, now);
    } else {
      ResultCloses(v, m, now);
      SilentKeeps(v, Recorded(v, m, now), m, now);
      assert OnResult(v, run, m, delivered, newId, now) == Recorded(v, m, now);
    }
  }

  // ── Recovery responses ─────────────────────────────────────────────────────────────────────

  /** A recovery response has been consumed; nothing else has happened yet. */
  ghost predicate Consumed(v: View, u: View, q: nat) {
    q in Recoveries(v.pend) && u == v.(pend := v.pend - {q})
  }

  /** A consumed response and the task it names. */
  ghost predicate Answers(v: View, u: View, a: Advice, t: Option<Task>) {
    Consumed(v, u, a.request) && v.pend[a.request].task == a.task && t == FindTask(v.tasks, a.task)
  }

  /** Only task statuses change, or subtasks appear, while no row is open. */
  lemma SettleKeeps(u: View, z: View)
    requires Core(u) && Recoveries(u.pend) == {} && u.trail != []
    requires u.rows != [] ==> Last(u.rows).status != Running
    requires z == u.(tasks := z.tasks) && Grown(u.tasks, z.tasks) && TasksOk(z.tasks)
    requires Alone(z) && u.rows != [] ==> Agree(Last(u.rows), z.tasks[0])
    ensures Inv(z)
  {
    CoupledGrown(u, z);
  }

  lemma RetryAccounts(u: View, z: View, e: Effect)
    requires RowsOk(u.rows) && Accounts(u) && u.rows != [] && Last(u.rows).status != Running
    requires Last(u.rows).retryCount < MAX_STAGE_RETRIES && e.Next?
    requires z.rows == Front(u.rows) + [Patched(Last(u.rows), Reopen, e.at)] && z.trail == u.trail + [e]
    ensures RowsOk(z.rows) && Accounts(z)
  {
    ReplaceLast(u.rows, Last(z.rows));
    ClosedOpen(u.rows);
    TrailSums(u.trail, e);
    assert RowsOk(z.rows);
    hide RowsOk, Weight, Open, Total, LastSent;
  }

  lemma SameStages(rows: seq<Row>, out: seq<Row>, x: Row)
    requires rows != [] && x.stage == Last(rows).stage && out == Front(rows) + [x]
    ensures |out| == |rows| && forall i :: 0 <= i < |rows| ==> rows[i].stage == out[i].stage
  {
  }

  lemma RetryCoupled(u: View, z: View, e: Effect)
    requires Coupled(u) && TasksOk(u.tasks) && u.rows != [] && u.trail != [] && Recoveries(z.pend) == {} && e.Next?
    requires Grown(u.tasks, z.tasks) && TasksOk(z.tasks)
    requires z.rows == Front(u.rows) + [Patched(Last(u.rows), Reopen, e.at)] && z.trail == u.trail + [e]
    ensures Coupled(z)
  {
    TrailSums(u.trail, e);
    SameStages(u.rows, z.rows, Patched(Last(u.rows), Reopen, e.at));
    hide Coupled, Grown, TasksOk;
    CoupledGrown(u, z);
  }

  lemma RetryKeeps(u: View, z: View, e: Effect)
    requires Core(u) && Recoveries(u.pend) == {} && u.rows != [] && u.trail != [] && Last(u.rows).status != Running
    requires Last(u.rows).retryCount < MAX_STAGE_RETRIES && e.Next?
    requires Grown(u.tasks, z.tasks) && TasksOk(z.tasks) && z.pend == u.pend
    requires z.rows == Front(u.rows) + [Patched(Last(u.rows), Reopen, e.at)] && z.trail == u.trail + [e]
    requires Alone(z) ==> z.tasks[0].status == InProgress
    ensures Inv(z)
  {
    hide RowsOk, Coupled, Accounts, Grown, TasksOk, Alone;
    RetryAccounts(u, z, e);
    RetryCoupled(u, z, e);
    assert Last(z.rows).status == Running;
    AlongKeeps(z);
  }

  /** A skipped evaluation, its rows all deleted: the one way a row appears after a deletion. */
  lemma SkipAfterWipe(u: View, z: View, row: Row, e: Effect)
    requires Core(u) && Recoveries(u.pend) == {} && u.trail != [] && !Intact(u) && u.rows == []
    requires Total(u.trail, Sent) <= 16
    requires z.rows == [row] && z.trail == u.trail + [e] && z.pend == u.pend && TasksOk(z.tasks)
    requires row.stage == SkillManage && row.status == Running && row.retryCount == 0
    requires e.Next? && e.at == row.updatedAt
    requires forall i :: 0 <= i < |z.tasks| ==> z.tasks[i].stage != Some(Evaluation)
    ensures Inv(z)
  {
    TrailSums(u.trail, e);
    assert z.rows == u.rows + [row];
    SentAccounts(u, z, row, e);
  }

  /** A found task has a position, and with its stage held only once, no other task holds it. */
  lemma Position(tasks: seq<Task>, id: nat) returns (k: nat)
    requires TasksOk(tasks) && FindTask(tasks, id).Some?
    ensures k < |tasks| && FindTask(tasks, id).value == tasks[k] && tasks[k].id == id
    ensures forall i :: 0 <= i < |tasks| && i != k ==> tasks[i].id != id
    ensures forall s: Stage :: OneHolder(tasks, s) && tasks[k].stage == Some(s) ==>
              forall i :: 0 <= i < |tasks| && i != k ==> tasks[i].stage != Some(s)
  {
    k :| 0 <= k < |tasks| && tasks[k] == FindTask(tasks, id).value;
  }

  function Skipped(u: View, run: nat, a: Advice, newId: nat, now: nat): View {
    Advanced(u, run, FindTask(u.tasks, a.task), Some(InProgress), SkillManage, "", a.params, "{}", newId, now)
  }

  lemma SkipIntact(u: View, run: nat, a: Advice, newId: nat, now: nat)
    requires Core(u) && Intact(u) && Recoveries(u.pend) == {} && Last(u.rows).status != Running
    requires StageById(u.tasks, a.task) == Some(Evaluation) && Last(u.rows).stage == Evaluation
    requires FreshFor(u, newId)
    ensures Inv(Skipped(u, run, a, newId, now))
  {
    var z := Skipped(u, run, a, newId, now);
    var k := Position(u.tasks, a.task);
    assert Last(u.rows) in u.rows;
    AdvanceKeeps(u, z, k, Last(z.rows), Last(z.trail));
  }

  lemma SkipWiped(u: View, run: nat, a: Advice, newId: nat, now: nat)
    requires Core(u) && u.trail != [] && !Intact(u) && Recoveries(u.pend) == {} && u.rows == []
    requires StageById(u.tasks, a.task) == Some(Evaluation) && Total(u.trail, Sent) <= 16
    ensures Inv(Skipped(u, run, a, newId, now))
  {
    var z := Skipped(u, run, a, newId, now);
    var k := Position(u.tasks, a.task);
    assert OneHolder(u.tasks, Evaluation);
    SkipAfterWipe(u, z, Last(z.rows), Last(z.trail));
  }

  /** The row an honest retry picks, read newest-first or found from the back, is the failed newest one. */
  lemma RetryPicksNewest(v: View, q: nat, t: Option<Task>)
    requires Inv(v) && q in Recoveries(v.pend) && t == FindTask(v.tasks, v.pend[q].task)
    requires Decide(v.rows, t, Retry).Again?
    ensures v.rows != [] && Decide(v.rows, t, Retry).row == Last(v.rows)
    ensures Last(v.rows).status == Failed && Last(v.rows).retryCount < MAX_STAGE_RETRIES
  {
  }

  lemma SetKeepsTasks(tasks: seq<Task>, id: nat, status: Option<TaskStatus>, stage: Option<Stage>)
    requires TasksOk(tasks)
    ensures TasksOk(SetTask(tasks, id, status, stage))
  {
  }

  lemma DivideShape(tasks: seq<Task>, run: nat, t: Task, count: nat, newId: nat)
    requires TasksOk(tasks) && t in tasks && forall x :: x in tasks ==> x.id < newId
    ensures var us := SetTask(tasks + Subtasks(run, t.id, count, newId), t.id, Some(Decomposed), None);
            TasksOk(us) && Grown(tasks, us) && |us| == |tasks| + count
  {
    var grown := tasks + Subtasks(run, t.id, count, newId);
    var us := SetTask(grown, t.id, Some(Decomposed), None);
    AppendSorted(tasks, Subtasks(run, t.id, count, newId), newId);
    SetKeepsTasks(grown, t.id, Some(Decomposed), None);
    hide TasksOk;
    forall i | |tasks| <= i < |us| ensures Parented(tasks, us[i]) {
      var k :| 0 <= k < |tasks| && tasks[k] == t;
      assert us[i].parentId == tasks[k].id;
    }
  }

  /** A finishing verdict is only reached at the last stage. */
  lemma FinishAtEnd(v: View, q: nat, t: Option<Task>, action: Action)
    requires Inv(v) && q in Recoveries(v.pend) && t == FindTask(v.tasks, v.pend[q].task)
    requires Decide(v.rows, t, action).Finish? && Intact(v)
    ensures v.rows != [] && Last(v.rows).stage == SkillManage
  {
  }

  /** Losing a request, or any request other than a recovery, keeps the invariant. */
  lemma ForgetKeeps(v: View, z: View)
    requires Inv(v) && z == v.(pend := z.pend)
    requires forall q :: q in Recoveries(z.pend) ==> q in Recoveries(v.pend) && z.pend[q] == v.pend[q]
    ensures Inv(z)
  {
    if v.trail != [] { CoupledGrown(v, z); }
  }

  lemma GrowKeeps(v: View, z: View)
    requires Inv(v) && z == v.(tasks := z.tasks)
    requires Grown(v.tasks, z.tasks) && TasksOk(z.tasks) && v.tasks != [] && 1 < |z.tasks|
    ensures Inv(z)
  {
    CoupledGrown(v, z);
    forall q | q in Recoveries(z.pend)
      ensures StageById(z.tasks, z.pend[q].task) in {None, StageById(v.tasks, z.pend[q].task)}
    {
      GrownFind(v.tasks, z.tasks, z.pend[q].task);
    }
  }

  /** Until evaluation is over a run has been dispatched at most four times four. */
  lemma EarlyBudget(v: View, q: nat)
    requires Inv(v) && q in Recoveries(v.pend) && StageById(v.tasks, v.pend[q].task) == Some(Evaluation)
    ensures Total(v.trail, Sent) <= 16
  {
    hide Books;
    var k := Position(v.tasks, v.pend[q].task);
    assert v.rows != [] ==> Last(v.rows) in v.rows;
  }

  // ── Exactly which responses keep the invariant ─────────────────────────────────────────────

  /** The shared table holds t under the id that the response names, and the run holds it or no task of
      that id. */
  ghost predicate Locates(v: View, a: Advice, t: Option<Task>, newId: nat) {
    && (t.Some? ==> t.value.id == a.task && 0 < t.value.id < newId)
    && FindTask(v.tasks, a.task) in {None, t}
  }

  /** The context of a response, as any run sees it. */
  ghost predicate Sees(v: View, run: nat, a: Advice, c: Context, newId: nat) {
    && Locates(v, a, c.task, newId)
    && (a.run == run ==> c.rows == v.rows)
    && (a.request in v.pend ==> c.pending)
  }

  ghost predicate Holds(v: View, t: Option<Task>) {
    t.Some? && t.value in v.tasks
  }

  /** If t is the lone main task, this status fits the newest row and no recovery is pending. */
  ghost predicate Tellable(u: View, t: Option<Task>, status: TaskStatus) {
    Alone(u) && u.rows != [] && Holds(u, t) ==>
      Agree(Last(u.rows), u.tasks[0].(status := status)) && Recoveries(u.pend) == {}
  }

  /** If the main task is alone and is not t, it is at work already. */
  ghost predicate AtWork(u: View, t: Option<Task>) {
    Alone(u) && u.rows != [] && !Holds(u, t) ==> u.tasks[0].status == InProgress
  }

  ghost predicate NoTaskAt(tasks: seq<Task>, s: Stage) {
    forall i :: 0 <= i < |tasks| ==> tasks[i].stage != Some(s)
  }

  /** In the run that the response names: a row may be reopened if it is the newest, closed, and awaits no
      recovery; a stage may be skipped to if the newest row is closed and earlier, and if the task is of
      another run, the newest task carries no stage; subtasks of a task of another run may join a run
      whose rows are gone; and the task may be told what agrees with the newest row. */
  ghost predicate NamedMay(u: View, a: Advice, t: Option<Task>, verdict: Verdict) {
    match verdict
    case Ignore => true
    case GiveUp => Tellable(u, t, Broken)
    case Finish => Tellable(u, t, Done)
    case Divide =>
      if t.None? || a.subtasks == 0 then Tellable(u, t, Decomposed)
      else Holds(u, t) || (u.trail != [] && !Intact(u))
    case Again(row) =>
      && u.rows != [] && row == Last(u.rows) && row.status != Running
      && Recoveries(u.pend) == {} && AtWork(u, t)
    case Onward(next) =>
      && Recoveries(u.pend) == {} && u.trail != []
      && (if u.rows == []
          then Total(u.trail, Sent) <= 16 && (Holds(u, t) || NoTaskAt(u.tasks, Evaluation))
          else
            && Last(u.rows).status != Running && Rank(Last(u.rows).stage) < Rank(next)
            && (Holds(u, t) || (StageOf(Newest(u.tasks)) == None && AtWork(u, t))))
  }

  /** In any other run only the task can be told: what agrees with the newest row, or a stage that the
      newest row has reached and no other task holds. */
  ghost predicate OtherMay(u: View, t: Option<Task>, verdict: Verdict) {
    match verdict
    case Ignore => true
    case GiveUp => Tellable(u, t, Broken)
    case Finish => Tellable(u, t, Done)
    case Divide => Tellable(u, t, Decomposed)
    case Again(_) => Tellable(u, t, InProgress)
    case Onward(next) =>
      Holds(u, t) && Intact(u) && u.rows != [] ==> Last(u.rows).stage == next && NoTaskAt(u.tasks, next)
  }

  /** After a response has been consumed, whatever it answers and whatever it names. */
  ghost predicate Admissible(u: View, run: nat, a: Advice, t: Option<Task>, verdict: Verdict) {
    if run == a.run then NamedMay(u, a, t, verdict) else OtherMay(u, t, verdict)
  }

  // ── The task is told ──

  lemma {:induction false} SetNobody(tasks: seq<Task>, id: nat, status: Option<TaskStatus>, stage: Option<Stage>)
    requires FindTask(tasks, id).None?
    ensures SetTask(tasks, id, status, stage) == tasks
  {
    forall i | 0 <= i < |tasks| ensures tasks[i].id != id { assert tasks[i] in tasks; }
  }

  /** Telling a task of another run tells nobody here. */
  lemma SetLocated(u: View, a: Advice, t: Option<Task>, newId: nat, status: Option<TaskStatus>, stage: Option<Stage>)
    requires Locates(u, a, t, newId)
    ensures SetFound(u.tasks, t, status, stage) == SetFound(u.tasks, FindTask(u.tasks, a.task), status, stage)
    ensures Holds(u, t) <==> FindTask(u.tasks, a.task).Some?
  {
    if t.Some? && FindTask(u.tasks, a.task).None? { SetNobody(u.tasks, a.task, status, stage); }
  }

  lemma SetGrows(tasks: seq<Task>, id: nat, status: TaskStatus)
    ensures Grown(tasks, SetTask(tasks, id, Some(status), None))
  {
  }

  lemma StatusKeepsCore(u: View, z: View, id: nat, status: TaskStatus)
    requires Inv(u) && z == u.(tasks := SetTask(u.tasks, id, Some(status), None)) && u.trail != []
    ensures Core(z) && RequestsOk(z)
  {
    assert Core(u) && RequestsOk(u);
    assert RowsOk(u.rows) && TasksOk(u.tasks) && Coupled(u) && Accounts(u);
    hide Inv, RowsOk, Coupled, Intact, Books, OnTime;
    SetKeepsTasks(u.tasks, id, Some(status), None);
    SetGrows(u.tasks, id, status);
    hide TasksOk, SetTask;
    forall q ensures StageById(z.tasks, q) in {None, StageById(u.tasks, q)} { GrownFind(u.tasks, z.tasks, q); }
    hide Grown, Extended, StageById;
    assert Accounts(z);
    CoupledGrown(u, z);
  }

  lemma StatusKeepsIff(u: View, z: View, a: Advice, t: Option<Task>, newId: nat, status: TaskStatus)
    requires Inv(u) && status in {Broken, Done, Decomposed, InProgress} && Locates(u, a, t, newId)
    requires z == u.(tasks := SetFound(u.tasks, t, Some(status), None))
    ensures Inv(z) <==> Tellable(u, t, status)
  {
    SetLocated(u, a, t, newId, Some(status), None);
    if Holds(u, t) {
      assert u.trail != [];
      StatusKeepsCore(u, z, a.task, status);
      var k :| 0 <= k < |u.tasks| && u.tasks[k] == t.value;
      assert |z.tasks| == |u.tasks|;
      hide Core, RequestsOk, FindTask, SetTask;
    }
  }

  // ── A row runs again ──

  lemma ReopenKeepsIff(rows: seq<Row>, row: Row, now: nat)
    requires RowsOk(rows) && row in rows && row.retryCount < MAX_STAGE_RETRIES
    ensures RowsOk(PatchRow(rows, row.id, Reopen, now)) <==> row == Last(rows)
  {
    var i :| 0 <= i < |rows| && rows[i] == row;
    var out := PatchRow(rows, row.id, Reopen, now);
    assert out[i].status == Running;
    if row == Last(rows) { PatchLast(rows, Reopen, now); }
  }

  /** Dispatching a row that still runs leaves one dispatch unaccounted for. */
  lemma RerunBreaksBooks(u: View, z: View, e: Effect)
    requires Books(u) && u.rows != [] && Last(u.rows).status == Running && e.Next?
    requires z.rows == Front(u.rows) + [Patched(Last(u.rows), Reopen, e.at)] && z.trail == u.trail + [e]
    ensures !Books(z)
  {
    ReplaceLast(u.rows, Last(z.rows));
    TrailSums(u.trail, e);
  }

  /** The tasks after the task was told to run. */
  ghost predicate Resumed(u: View, z: View, t: Option<Task>) {
    && Grown(u.tasks, z.tasks) && TasksOk(z.tasks) && |z.tasks| == |u.tasks|
    && (|z.tasks| == 1 ==> z.tasks[0].status == if Holds(u, t) then InProgress else u.tasks[0].status)
  }

  lemma ResumeShape(u: View, z: View, a: Advice, t: Option<Task>, newId: nat)
    requires TasksOk(u.tasks) && Locates(u, a, t, newId)
    requires z.tasks == SetFound(u.tasks, t, Some(InProgress), None)
    ensures Resumed(u, z, t)
  {
    SetLocated(u, a, t, newId, Some(InProgress), None);
    if Holds(u, t) {
      SetGrows(u.tasks, a.task, InProgress);
      SetKeepsTasks(u.tasks, a.task, Some(InProgress), None);
      var k :| 0 <= k < |u.tasks| && u.tasks[k] == t.value;
    }
  }

  /** The newest row, closed, runs again. */
  lemma AgainClosed(u: View, z: View, t: Option<Task>, e: Effect)
    requires Inv(u) && u.rows != [] && Last(u.rows).status != Running && e.Next?
    requires Last(u.rows).retryCount < MAX_STAGE_RETRIES && z.pend == u.pend && Resumed(u, z, t)
    requires z.rows == Front(u.rows) + [Patched(Last(u.rows), Reopen, e.at)] && z.trail == u.trail + [e]
    ensures Inv(z) <==> Recoveries(u.pend) == {} && AtWork(u, t)
  {
    TrailSums(u.trail, e);
    assert Core(u) && u.trail != [] && Last(z.rows).status == Running;
    assert Inv(z) ==> RequestsOk(z) && Agreement(z);
    hide Inv, Core, Grown, TasksOk;
    if Recoveries(u.pend) == {} && AtWork(u, t) { RetryKeeps(u, z, e); }
  }

  lemma AgainKeepsIff(u: View, z: View, t: Option<Task>, row: Row, e: Effect)
    requires Inv(u) && row in u.rows && row.retryCount < MAX_STAGE_RETRIES && e.Next?
    requires z.pend == u.pend && Resumed(u, z, t)
    requires z.rows == PatchRow(u.rows, row.id, Reopen, e.at) && z.trail == u.trail + [e]
    ensures Inv(z) <==> row == Last(u.rows) && row.status != Running && Recoveries(u.pend) == {} && AtWork(u, t)
  {
    assert RowsOk(u.rows) && Books(u);
    assert Inv(z) ==> RowsOk(z.rows) && Books(z);
    hide Inv, Resumed, Books, AtWork;
    ReopenKeepsIff(u.rows, row, e.at);
    if row == Last(u.rows) {
      PatchLast(u.rows, Reopen, e.at);
      hide RowsOk, PatchRow;
      if row.status == Running { RerunBreaksBooks(u, z, e); } else { AgainClosed(u, z, t, e); }
    }
  }

  // ── A stage is skipped ──

  lemma AppendKeepsIff(rows: seq<Row>, row: Row, newId: nat)
    requires RowsOk(rows) && row.id == newId && row.retryCount == 0 && forall x :: x in rows ==> x.id < newId
    ensures RowsOk(rows + [row]) <==>
            rows == [] || (Last(rows).status != Running && Rank(Last(rows).stage) < Rank(row.stage))
  {
    var out := rows + [row];
    if rows != [] {
      assert out[|rows| - 1] == Last(rows) && out[|rows|] == row;
    }
  }

  /** What a skip adds to the run that the response names. */
  ghost predicate Hopped(u: View, z: View, row: Row, e: Effect) {
    && z.rows == u.rows + [row] && z.trail == u.trail + [e] && z.pend == u.pend && e.Next? && e.at == row.updatedAt
    && row.stage == SkillManage && row.status == Running && row.retryCount == 0
    && forall x :: x in u.rows ==> x.id < row.id
  }

  /** Whatever its tasks become, a run with a new row has all rows before it closed and earlier. */
  lemma HopNeeds(u: View, z: View, row: Row, e: Effect)
    requires Inv(u) && Inv(z) && Hopped(u, z, row, e)
    ensures Recoveries(u.pend) == {} && (u.rows == [] ==> Total(u.trail, Sent) <= 16)
    ensures u.rows != [] ==> Last(u.rows).status != Running && Rank(Last(u.rows).stage) < Rank(SkillManage)
  {
    assert RowsOk(u.rows) && RowsOk(z.rows) && RequestsOk(z) && Budget(z);
    hide Inv, RowsOk;
    AppendKeepsIff(u.rows, row, row.id);
    TrailSums(u.trail, e);
  }

  /** Nothing of the run but its rows moves. */
  lemma StrayHopNeeds(u: View, z: View, t: Option<Task>, row: Row, e: Effect)
    requires Inv(u) && Inv(z) && Hopped(u, z, row, e) && z.tasks == u.tasks && !Holds(u, t)
    ensures u.trail != []
    ensures if u.rows == [] then NoTaskAt(u.tasks, Evaluation) else StageOf(Newest(u.tasks)) == None && AtWork(u, t)
  {
    HopNeeds(u, z, row, e);
    TrailSums(u.trail, e);
    assert z.rows != [] && Last(z.rows) == row && Coupled(u) && Coupled(z) && Agreement(z);
    hide Inv, Hopped, AtWork, RequestsOk;
  }

  lemma StrayHopCoupled(u: View, z: View, row: Row)
    requires CoupledIntact(u) && Last(u.tasks).stage == None && Rank(Last(u.rows).stage) < Rank(row.stage)
    requires z.rows == u.rows + [row] && z.tasks == u.tasks && Recoveries(z.pend) == {}
    ensures CoupledIntact(z)
  {
  }

  lemma StrayHopKeeps(u: View, z: View, t: Option<Task>, row: Row, e: Effect)
    requires Inv(u) && u.trail != [] && Hopped(u, z, row, e) && z.tasks == u.tasks && !Holds(u, t)
    requires Recoveries(u.pend) == {}
    requires if u.rows == [] then Total(u.trail, Sent) <= 16 && NoTaskAt(u.tasks, Evaluation)
             else
               && Last(u.rows).status != Running && Rank(Last(u.rows).stage) < Rank(SkillManage)
               && StageOf(Newest(u.tasks)) == None && AtWork(u, t)
    ensures Inv(z)
  {
    TrailSums(u.trail, e);
    if u.rows == [] {
      assert z.rows == [row];
      SkipAfterWipe(u, z, row, e);
    } else {
      ClosedOpen(u.rows);
      AppendKeepsIff(u.rows, row, row.id);
      SentAccounts(u, z, row, e);
      StrayHopCoupled(u, z, row);
      AlongKeeps(z);
    }
  }

  lemma HeldHopKeeps(u: View, run: nat, a: Advice, newId: nat, now: nat)
    requires Inv(u) && a.run == run && FreshFor(u, newId) && StageById(u.tasks, a.task) == Some(Evaluation)
    requires NamedMay(u, a, FindTask(u.tasks, a.task), Onward(SkillManage))
    ensures Inv(Skipped(u, run, a, newId, now))
  {
    hide Skipped, FreshFor;
    var k := Position(u.tasks, a.task);
    if Intact(u) { SkipIntact(u, run, a, newId, now); } else { SkipWiped(u, run, a, newId, now); }
  }

  lemma OnwardKeepsIff(u: View, run: nat, a: Advice, t: Option<Task>, newId: nat, now: nat)
    requires Inv(u) && a.run == run && FreshFor(u, newId) && Locates(u, a, t, newId) && StageOf(t) == Some(Evaluation)
    ensures Inv(Enact(u, run, a, Onward(SkillManage), t, newId, now)) <==> NamedMay(u, a, t, Onward(SkillManage))
  {
    var z := Enact(u, run, a, Onward(SkillManage), t, newId, now);
    var row, e := FreshRow(newId, run, SkillManage, "", a.params, now), Next(SkillManage, "", "{}", 0, now);
    SetLocated(u, a, t, newId, Some(InProgress), Some(SkillManage));
    assert Hopped(u, z, row, e);
    assert Holds(u, t) ==> t == FindTask(u.tasks, a.task) && z == Skipped(u, run, a, newId, now) && u.trail != [];
    assert !Holds(u, t) ==> z.tasks == u.tasks;
    hide Inv, Hopped, Enact, FreshFor, FindTask, Skipped, AtWork, NoTaskAt;
    if Inv(z) { HopNeeds(u, z, row, e); }
    if Holds(u, t) {
      if NamedMay(u, a, t, Onward(SkillManage)) { HeldHopKeeps(u, run, a, newId, now); }
    } else {
      if Inv(z) { StrayHopNeeds(u, z, t, row, e); }
      else if NamedMay(u, a, t, Onward(SkillManage)) { StrayHopKeeps(u, z, t, row, e); }
    }
  }

  // ── Subtasks are added ──

  lemma HeldDivideKeeps(u: View, run: nat, a: Advice, t: Option<Task>, newId: nat, now: nat)
    requires Inv(u) && a.run == run && FreshFor(u, newId) && Holds(u, t) && a.subtasks > 0
    ensures Inv(Enact(u, run, a, Divide, t, newId, now))
  {
    var z := Enact(u, run, a, Divide, t, newId, now);
    DivideShape(u.tasks, run, t.value, a.subtasks, newId);
    GrowKeeps(u, z);
  }

  /** Subtasks of a task of another run. */
  ghost predicate Foster(u: View, z: View, parent: nat) {
    && z == u.(tasks := z.tasks) && |z.tasks| > |u.tasks| && Extended(u.tasks, z.tasks) && TasksOk(z.tasks)
    && Last(z.tasks).parentId == parent && parent != 0 && forall i :: 0 <= i < |z.tasks| ==> z.tasks[i].id != parent
  }

  lemma FosterBreaks(u: View, z: View, parent: nat)
    requires Inv(u) && Foster(u, z, parent) && (u.trail == [] || Intact(u))
    ensures !Inv(z)
  {
    assert !Parented(z.tasks, Last(z.tasks));
  }

  lemma FosterKeeps(u: View, z: View, parent: nat)
    requires Inv(u) && Foster(u, z, parent) && u.trail != [] && !Intact(u)
    ensures Inv(z)
  {
    assert Core(u) && CoupledWiped(u) && CoupledWiped(z);
    forall q ensures StageById(z.tasks, q) in {None, StageById(u.tasks, q)} { GrownFind(u.tasks, z.tasks, q); }
    hide CoupledWiped, Extended, TasksOk, RowsOk, Books, StageById;
  }

  lemma FosterShape(u: View, a: Advice, t: Option<Task>, run: nat, newId: nat)
    requires TasksOk(u.tasks) && FreshFor(u, newId) && Locates(u, a, t, newId) && t.Some? && !Holds(u, t)
    requires a.subtasks > 0
    ensures Foster(u, u.(tasks := u.tasks + Subtasks(run, a.task, a.subtasks, newId)), a.task)
    ensures var us := u.tasks + Subtasks(run, a.task, a.subtasks, newId);
            SetTask(us, a.task, Some(Decomposed), None) == us
  {
    AppendSorted(u.tasks, Subtasks(run, a.task, a.subtasks, newId), newId);
    forall i | 0 <= i < |u.tasks| ensures u.tasks[i].id != a.task { assert u.tasks[i] in u.tasks; }
  }

  lemma DivideKeepsIff(u: View, run: nat, a: Advice, t: Option<Task>, newId: nat, now: nat)
    requires Inv(u) && a.run == run && FreshFor(u, newId) && Locates(u, a, t, newId)
    ensures Inv(Enact(u, run, a, Divide, t, newId, now)) <==> NamedMay(u, a, t, Divide)
  {
    var z := Enact(u, run, a, Divide, t, newId, now);
    if t.None? || a.subtasks == 0 {
      assert u.tasks + [] == u.tasks;
      assert z == u.(tasks := SetFound(u.tasks, t, Some(Decomposed), None));
      hide Inv, Enact, Locates, Tellable;
      StatusKeepsIff(u, z, a, t, newId, Decomposed);
    } else if Holds(u, t) {
      hide Inv, Enact;
      HeldDivideKeeps(u, run, a, t, newId, now);
    } else {
      assert TasksOk(u.tasks) && u.trail == [] ==> !Intact(u);
      FosterShape(u, a, t, run, newId);
      assert Foster(u, z, a.task);
      hide Inv, Enact, Foster, Intact;
      if u.trail == [] || Intact(u) { FosterBreaks(u, z, a.task); } else { FosterKeeps(u, z, a.task); }
    }
  }

  // ── In other runs ──

  /** The tasks after the task at k, at evaluation, was moved on. */
  ghost predicate Ahead(ts: seq<Task>, us: seq<Task>, k: nat) {
    && k < |ts| && ts[k].stage == Some(Evaluation)
    && us == ts[k := Edited(ts[k], Some(InProgress), Some(SkillManage))]
  }

  lemma AheadFind(ts: seq<Task>, us: seq<Task>, k: nat, q: nat)
    requires TasksOk(ts) && Ahead(ts, us, k)
    ensures TasksOk(us) && StageById(us, q) == if q == ts[k].id then Some(SkillManage) else StageById(ts, q)
  {
    if FindTask(ts, q).Some? {
      var i :| 0 <= i < |ts| && ts[i] == FindTask(ts, q).value;
      FoundById(us, i);
    } else {
      assert forall i :: 0 <= i < |us| ==> us[i].id == ts[i].id && ts[i] in ts;
    }
    if q == ts[k].id { FoundById(us, k); }
  }

  lemma AheadCoupled(u: View, z: View, k: nat)
    requires TasksOk(u.tasks) && CoupledIntact(u) && z == u.(tasks := z.tasks) && Ahead(u.tasks, z.tasks, k)
    requires Last(u.rows).stage == SkillManage && NoTaskAt(u.tasks, SkillManage)
    ensures CoupledIntact(z) && |z.tasks| > 1
  {
    forall i | 0 <= i < |z.tasks| ensures Parented(z.tasks, z.tasks[i]) {
      assert Parented(u.tasks, u.tasks[i]);
      if u.tasks[i].parentId != 0 {
        var j :| 0 <= j < |u.tasks| && u.tasks[j].id == u.tasks[i].parentId;
        assert z.tasks[j].id == z.tasks[i].parentId;
      }
    }
    forall s: Stage ensures OneHolder(z.tasks, s) { assert OneHolder(u.tasks, s); }
    forall q | q in Recoveries(z.pend)
      ensures StageById(z.tasks, z.pend[q].task) in {None, Some(SkillManage)}
    {
      AheadFind(u.tasks, z.tasks, k, z.pend[q].task);
    }
  }

  lemma AheadAccounts(u: View, z: View, k: nat)
    requires TasksOk(u.tasks) && Accounts(u) && z == u.(tasks := z.tasks) && Ahead(u.tasks, z.tasks, k)
    ensures TasksOk(z.tasks) && Accounts(z)
  {
    forall q ensures TasksOk(z.tasks) && StageById(z.tasks, q) in {Some(SkillManage), StageById(u.tasks, q)} {
      AheadFind(u.tasks, z.tasks, k, q);
    }
    hide TasksOk, Ahead, StageById;
  }

  lemma AheadWiped(u: View, z: View, k: nat)
    requires TasksOk(u.tasks) && CoupledWiped(u) && z == u.(tasks := z.tasks) && Ahead(u.tasks, z.tasks, k)
    ensures CoupledWiped(z)
  {
  }

  lemma AheadNeeds(u: View, z: View, k: nat)
    requires z == u.(tasks := z.tasks) && Ahead(u.tasks, z.tasks, k) && CoupledIntact(z)
    ensures Last(u.rows).stage == SkillManage && NoTaskAt(u.tasks, SkillManage)
  {
    assert OneHolder(z.tasks, SkillManage) && StageAtMost(z.tasks[k], Last(u.rows).stage);
    forall i | 0 <= i < |u.tasks| ensures u.tasks[i].stage != Some(SkillManage) {
      assert i != k ==> z.tasks[i] == u.tasks[i];
    }
  }

  /** The task is moved on while the rows of its run stay. */
  lemma AheadKeepsIff(u: View, z: View, k: nat)
    requires Inv(u) && u.trail != [] && z == u.(tasks := z.tasks) && Ahead(u.tasks, z.tasks, k)
    ensures Inv(z) <==>
            (Intact(u) && u.rows != [] ==> Last(u.rows).stage == SkillManage && NoTaskAt(u.tasks, SkillManage))
  {
    AheadAccounts(u, z, k);
    hide RowsOk, TasksOk, Accounts, Agree, NoWipe;
    if !Intact(u) {
      AheadWiped(u, z, k);
    } else if Last(u.rows).stage == SkillManage && NoTaskAt(u.tasks, SkillManage) {
      AheadCoupled(u, z, k);
    } else if CoupledIntact(z) {
      AheadNeeds(u, z, k);
    }
  }

  lemma SetAt(tasks: seq<Task>, k: nat, status: Option<TaskStatus>, stage: Option<Stage>)
    requires TasksOk(tasks) && k < |tasks|
    ensures SetTask(tasks, tasks[k].id, status, stage) == tasks[k := Edited(tasks[k], status, stage)]
  {
  }

  lemma OtherKeepsIff(u: View, run: nat, a: Advice, t: Option<Task>, verdict: Verdict, newId: nat, now: nat)
    requires Inv(u) && a.run != run && Locates(u, a, t, newId)
    requires verdict.Onward? ==> verdict.next == SkillManage && StageOf(t) == Some(Evaluation)
    ensures Inv(Enact(u, run, a, verdict, t, newId, now)) <==> OtherMay(u, t, verdict)
  {
    var z := Enact(u, run, a, verdict, t, newId, now);
    assert u.tasks + [] == u.tasks;
    match verdict {
      case GiveUp => StatusKeepsIff(u, z, a, t, newId, Broken);
      case Finish => StatusKeepsIff(u, z, a, t, newId, Done);
      case Divide => StatusKeepsIff(u, z, a, t, newId, Decomposed);
      case Again(_) => StatusKeepsIff(u, z, a, t, newId, InProgress);
      case Onward(next) =>
        SetLocated(u, a, t, newId, Some(InProgress), Some(next));
        if Holds(u, t) {
          var k :| 0 <= k < |u.tasks| && u.tasks[k] == t.value;
          SetAt(u.tasks, k, Some(InProgress), Some(next));
          AheadKeepsIff(u, z, k);
        }
      case Ignore =>
    }
  }

  // ── Any response ──

  lemma NamedKeepsIff(u: View, run: nat, a: Advice, t: Option<Task>, newId: nat, now: nat)
    requires Inv(u) && FreshFor(u, newId) && a.run == run && Locates(u, a, t, newId)
    ensures var verdict := Decide(u.rows, t, a.action);
            Inv(Enact(u, run, a, verdict, t, newId, now)) <==> NamedMay(u, a, t, verdict)
  {
    var verdict := Decide(u.rows, t, a.action);
    assert verdict.Onward? ==> verdict.next == SkillManage && StageOf(t) == Some(Evaluation);
    assert verdict.Again? ==> verdict.row in u.rows && verdict.row.retryCount < MAX_STAGE_RETRIES;
    hide Inv, FreshFor, Locates, Enact, Decide, NamedMay;
    match verdict {
      case Again(row) => ReopeningKeepsIff(u, run, a, t, row, newId, now);
      case Onward(next) => OnwardKeepsIff(u, run, a, t, newId, now);
      case Divide => DivideKeepsIff(u, run, a, t, newId, now);
      case _ => ToldKeepsIff(u, run, a, t, verdict, newId, now);
    }
  }

  lemma ReopeningKeepsIff(u: View, run: nat, a: Advice, t: Option<Task>, row: Row, newId: nat, now: nat)
    requires Inv(u) && a.run == run && Locates(u, a, t, newId) && row in u.rows && row.retryCount < MAX_STAGE_RETRIES
    ensures Inv(Enact(u, run, a, Again(row), t, newId, now)) <==> NamedMay(u, a, t, Again(row))
  {
    var z := Enact(u, run, a, Again(row), t, newId, now);
    var e := Next(row.stage, row.artifact, row.input, row.retryCount + 1, now);
    assert TasksOk(u.tasks) && z.tasks == SetFound(u.tasks, t, Some(InProgress), None);
    assert z.pend == u.pend && z.rows == PatchRow(u.rows, row.id, Reopen, e.at) && z.trail == u.trail + [e];
    hide Inv, TasksOk, Locates, Enact, SetFound, PatchRow, AtWork;
    ResumeShape(u, z, a, t, newId);
    hide Resumed;
    AgainKeepsIff(u, z, t, row, e);
  }

  lemma ToldKeepsIff(u: View, run: nat, a: Advice, t: Option<Task>, verdict: Verdict, newId: nat, now: nat)
    requires Inv(u) && a.run == run && Locates(u, a, t, newId) && verdict in {GiveUp, Ignore, Finish}
    ensures Inv(Enact(u, run, a, verdict, t, newId, now)) <==> NamedMay(u, a, t, verdict)
  {
    var z := Enact(u, run, a, verdict, t, newId, now);
    if verdict == Ignore {
      assert z == u;
    } else {
      var status := if verdict == GiveUp then Broken else Done;
      assert z == u.(tasks := SetFound(u.tasks, t, Some(status), None));
      hide Inv, Locates, Tellable, SetFound;
      StatusKeepsIff(u, z, a, t, newId, status);
    }
  }

  /** What the coordinator does with a response that it has consumed keeps the invariant of any run exactly
      when it is admissible there, whatever request it answers and whatever run and task it names. */
  lemma EnactKeepsIff(u: View, run: nat, a: Advice, c: Context, newId: nat, now: nat)
    requires Inv(u) && FreshFor(u, newId) && Sees(u, run, a, c, newId)
    ensures var verdict := Decide(c.rows, c.task, a.action);
            Inv(Enact(u, run, a, verdict, c.task, newId, now)) <==> Admissible(u, run, a, c.task, verdict)
  {
    var verdict := Decide(c.rows, c.task, a.action);
    assert verdict.Onward? ==> verdict.next == SkillManage && StageOf(c.task) == Some(Evaluation);
    hide Inv, FreshFor, Locates, Enact, Decide, NamedMay, OtherMay;
    if run == a.run {
      NamedKeepsIff(u, run, a, c.task, newId, now);
    } else {
      OtherKeepsIff(u, run, a, c.task, verdict, newId, now);
    }
  }

  /** A response to a pending request of any run and of whatever kind, naming whatever run and task, keeps
      the invariant of any run exactly when it is admissible there. */
  lemma RecoverKeepsIff(v: View, run: nat, a: Advice, c: Context, newId: nat, now: nat)
    requires Inv(v) && FreshFor(v, newId) && Sees(v, run, a, c, newId) && c.pending
    ensures Inv(OnRecovery(v, run, a, c, newId, now)) <==>
            Admissible(v.(pend := v.pend - {a.request}), run, a, c.task, Decide(c.rows, c.task, a.action))
  {
    var u := v.(pend := v.pend - {a.request});
    ForgetKeeps(v, u);
    assert FreshFor(u, newId) && Sees(u, run, a, c, newId);
    hide Inv, FreshFor, Sees, Admissible, Enact, Decide;
    EnactKeepsIff(u, run, a, c, newId, now);
  }

  /** An honest response is admissible. */
  lemma HonestAdmissible(v: View, u: View, a: Advice, t: Option<Task>)
    requires Inv(v) && Answers(v, u, a, t)
    ensures NamedMay(u, a, t, Decide(v.rows, t, a.action))
  {
    assert forall r :: r in Recoveries(u.pend) ==> r in Recoveries(v.pend);
    assert Recoveries(u.pend) == {} && (v.rows != [] ==> Last(v.rows).status == Failed);
    assert t.Some? ==> Holds(u, t) && u.trail != [];
    match Decide(v.rows, t, a.action) {
      case Again(row) => RetryPicksNewest(v, a.request, t);
      case Onward(next) =>
        EarlyBudget(v, a.request);
        var k := Position(v.tasks, a.task);
      case Finish => if Intact(v) { FinishAtEnd(v, a.request, t, a.action); }
      case _ =>
    }
  }

  lemma OwnLocated(v: View, a: Advice, newId: nat)
    requires TasksOk(v.tasks) && FreshFor(v, newId)
    ensures Locates(v, a, FindTask(v.tasks, a.task), newId)
  {
    var t := FindTask(v.tasks, a.task);
    if t.Some? {
      var k :| 0 <= k < |v.tasks| && v.tasks[k] == t.value;
    }
  }

  lemma RecoverKeeps(v: View, run: nat, a: Advice, c: Context, newId: nat, now: nat)
    requires Inv(v) && FreshFor(v, newId) && Honest(v, run, a, c)
    ensures Inv(OnRecovery(v, run, a, c, newId, now))
  {
    assert TasksOk(v.tasks);
    hide Inv, Enact, Decide, NamedMay, TasksOk;
    if c.pending {
      OwnLocated(v, a, newId);
      HonestAdmissible(v, v.(pend := v.pend - {a.request}), a, c.task);
      RecoverKeepsIff(v, run, a, c, newId, now);
    } else {
      assert OnRecovery(v, run, a, c, newId, now) == v;
    }
  }

  // ── Decomposition, timeouts, deletion ──────────────────────────────────────────────────────

  lemma SplitKeeps(v: View, run: nat, request: nat, task: nat, agreed: bool, count: nat, newId: nat)
    requires Inv(v) && FreshFor(v, newId)
    ensures Inv(Step(v, run, Event.Split(request, task, agreed, count, newId)))
  {
    var u := v.(pend := v.pend - {request});
    var t := FindTask(v.tasks, task);
    ForgetKeeps(v, u);
    var z := Step(v, run, Event.Split(request, task, agreed, count, newId));
    if agreed && count > 0 && t.Some? && t.value.runId == run {
      DivideShape(v.tasks, run, t.value, count, newId);
      GrowKeeps(u, z);
    } else {
      assert z == u;
    }
  }

  lemma {:induction false} NoneStale(rows: seq<Row>, now: nat)
    requires forall i :: 0 <= i < |rows| ==> rows[i].status != Running
    ensures StaleRows(rows, now) == []
  {
    if rows != [] { NoneStale(Front(rows), now); }
  }

  lemma OnlyLastStale(rows: seq<Row>, now: nat)
    requires RowsOk(rows)
    ensures StaleRows(rows, now) == if rows != [] && Stale(Last(rows), now) then [Last(rows)] else []
  {
    if rows != [] { NoneStale(Front(rows), now); }
  }

  function ExpiredRow(v: View, row: Row, now: nat): View {
    v.(rows := PatchRow(v.rows, row.id, Close(TimedOut, Lapse(row)), now),
       tasks := SetFound(v.tasks, Newest(v.tasks), Some(Broken), None),
       trail := v.trail + [Expired(row)])
  }

  lemma ExpireOne(v: View, row: Row, now: nat)
    ensures Expire(v, [row], now) == ExpiredRow(v, row, now)
  {
    assert Front([row]) == [] && Expire(v, [], now) == v;
  }

  lemma ExpireLast(v: View, now: nat)
    requires Inv(v) && NotBefore(v, now) && v.rows != [] && Stale(Last(v.rows), now)
    ensures Inv(ExpiredRow(v, Last(v.rows), now))
  {
    hide Coupled, Books, Budget;
    var row := Last(v.rows);
    var z := ExpiredRow(v, row, now);
    var w := z.(tasks := v.tasks);
    PatchLast(v.rows, Close(TimedOut, Lapse(row)), now);
    ClosedCore(v, w, TimedOut, Lapse(row), Expired(row), now);
    assert Last(w.rows).status == TimedOut && Grown(w.tasks, z.tasks);
    SettleKeeps(w, z);
  }

  /** With at most one row open, a tick times out the newest row or nothing. */
  lemma TickShape(v: View, run: nat, now: nat)
    requires RowsOk(v.rows)
    ensures Step(v, run, Tick(now)) ==
            if v.rows != [] && Stale(Last(v.rows), now) then ExpiredRow(v, Last(v.rows), now) else v
  {
    assert Expire(v, [], now) == v;
    assert Step(v, run, Tick(now)) == Expire(v, StaleRows(v.rows, now), now);
    hide Step, Expire;
    OnlyLastStale(v.rows, now);
    hide StaleRows, RowsOk, ExpiredRow;
    if v.rows != [] && Stale(Last(v.rows), now) {
      ExpireOne(v, Last(v.rows), now);
    }
  }

  lemma TickKeeps(v: View, run: nat, now: nat)
    requires Inv(v) && NotBefore(v, now)
    ensures Inv(Step(v, run, Tick(now)))
  {
    assert RowsOk(v.rows);
    hide Inv;
    TickShape(v, run, now);
    hide Step, RowsOk, ExpiredRow;
    if v.rows != [] && Stale(Last(v.rows), now) {
      ExpireLast(v, now);
    }
  }

  lemma OneMoreTask(tasks: seq<Task>, t: Task)
    requires TasksOk(tasks) && t.parentId < t.id && forall x :: x in tasks ==> x.id < t.id
    ensures TasksOk(tasks + [t])
  {
    forall i | 0 <= i < |tasks| ensures tasks[i].id < t.id { assert tasks[i] in tasks; }
  }

  /** Deletion picks a subsequence: ids stay ascending, no stage gains a holder and no lookup
      finds another stage. */
  lemma {:induction false} WithoutSorted(tasks: seq<Task>, root: nat)
    requires TasksOk(tasks)
    ensures TasksOk(Without(tasks, root))
  {
    if tasks != [] {
      var rest, last := Without(Front(tasks), root), Last(tasks);
      assert TasksOk(Front(tasks)) && last.parentId < last.id && forall x :: x in Front(tasks) ==> x.id < last.id;
      assert Without(tasks, root) in {rest, rest + [last]};
      hide Without, TasksOk;
      WithoutSorted(Front(tasks), root);
      OneMoreTask(rest, last);
    }
  }

  lemma {:induction false} WithoutHolder(tasks: seq<Task>, root: nat, s: Stage)
    requires OneHolder(tasks, s)
    ensures OneHolder(Without(tasks, root), s)
  {
    if tasks != [] {
      var rest := Without(Front(tasks), root);
      WithoutHolder(Front(tasks), root, s);
      forall i | 0 <= i < |rest| && Last(tasks).stage == Some(s) ensures rest[i].stage != Some(s) {
        assert rest[i] in rest;
      }
    }
  }

  lemma {:induction false} WithoutFind(tasks: seq<Task>, root: nat, id: nat)
    requires TasksOk(tasks)
    ensures StageById(Without(tasks, root), id) in {None, StageById(tasks, id)}
  {
    if tasks != [] {
      var kept, rest := Without(tasks, root), Without(Front(tasks), root);
      WithoutFind(Front(tasks), root, id);
      if |kept| > |rest| {
        assert Front(kept) == rest;
      } else if Last(tasks).id == id {
        assert forall x :: x in rest ==> x.id != id;
      }
    }
  }

  lemma {:induction false} NothingToDelete(tasks: seq<Task>, root: nat)
    requires forall i :: 0 <= i < |tasks| ==> Spared(tasks[i], root)
    ensures Without(tasks, root) == tasks
  {
    if tasks != [] {
      var front, last := Front(tasks), tasks[|tasks| - 1];
      assert Spared(last, root) && tasks == front + [last];
      hide Spared;
      NothingToDelete(front, root);
      WithoutAppend(front, last, root);
      hide Without;
    }
  }

  /** No row was ever deleted, so no task of the run is missing a parent. */
  lemma DeleteElsewhere(v: View, root: nat)
    requires CoupledIntact(v) && FindTask(v.tasks, root).None? && root != 0
    ensures Without(v.tasks, root) == v.tasks
  {
    forall i | 0 <= i < |v.tasks| ensures Spared(v.tasks[i], root) {
      assert v.tasks[i] in v.tasks && Parented(v.tasks, v.tasks[i]);
    }
    NothingToDelete(v.tasks, root);
  }

  lemma WipeCoupled(v: View, z: View, root: nat)
    requires TasksOk(v.tasks) && Coupled(v) && v.trail != []
    requires z == View([], Without(v.tasks, root), v.pend, v.trail + [Wiped(v.rows)])
    ensures TasksOk(z.tasks) && Coupled(z) && !Intact(z)
  {
    TrailSums(v.trail, Wiped(v.rows));
    WithoutSorted(v.tasks, root);
    assert OneHolder(v.tasks, Evaluation);
    WithoutHolder(v.tasks, root, Evaluation);
  }

  lemma WipeAccounts(v: View, z: View, root: nat)
    requires Inv(v)
    requires z == View([], Without(v.tasks, root), v.pend, v.trail + [Wiped(v.rows)])
    ensures Accounts(z)
  {
    TrailSums(v.trail, Wiped(v.rows));
    hide Coupled;
    forall q | q in Recoveries(z.pend) && StageById(z.tasks, z.pend[q].task) == Some(Evaluation)
      ensures Total(v.trail, Sent) <= 16
    {
      WithoutFind(v.tasks, root, v.pend[q].task);
      EarlyBudget(v, q);
    }
  }

  lemma WipeKeeps(v: View, z: View, root: nat)
    requires Inv(v) && v.trail != []
    requires z == View([], Without(v.tasks, root), v.pend, v.trail + [Wiped(v.rows)])
    ensures Inv(z)
  {
    WipeAccounts(v, z, root);
    WipeCoupled(v, z, root);
    assert Core(z);
    hide Core;
  }

  lemma ShrinkKeeps(v: View, z: View, root: nat)
    requires Inv(v) && !Intact(v) && z == v.(tasks := Without(v.tasks, root))
    ensures Inv(z)
  {
    WithoutSorted(v.tasks, root);
    if v.trail != [] {
      WithoutHolder(v.tasks, root, Evaluation);
      forall i | 0 <= i < |z.tasks| && v.rows != [] ensures z.tasks[i].stage != Some(Evaluation) {
        assert z.tasks[i] in z.tasks;
      }
    }
    forall q | q in Recoveries(z.pend)
      ensures StageById(z.tasks, z.pend[q].task) in {None, StageById(v.tasks, z.pend[q].task)}
    {
      WithoutFind(v.tasks, root, z.pend[q].task);
    }
  }

  lemma FirstHasNoParent(tasks: seq<Task>)
    requires TasksOk(tasks) && tasks != [] && tasks[0].parentId != 0
    ensures !Parented(tasks, tasks[0])
  {
  }

  /** The empty id takes the main task of an intact run and leaves its rows, which the invariant forbids. */
  lemma EmptyIdBreaks(v: View, z: View)
    requires Inv(v) && Intact(v) && z == v.(tasks := Without(v.tasks, 0))
    ensures !Inv(z)
  {
    WithoutSorted(v.tasks, 0);
    if z.tasks != [] {
      assert z.tasks[0] in z.tasks;
      FirstHasNoParent(z.tasks);
    }
  }

  /** A deletion keeps the invariant exactly when it names a task or the run has lost its rows before. */
  lemma DeleteKeepsIff(v: View, run: nat, root: nat)
    requires Inv(v) && run != 0
    ensures Inv(OnDelete(v, run, root)) <==> root != 0 || !Intact(v)
  {
    var z := OnDelete(v, run, root);
    assert TasksOk(v.tasks);
    if FindTask(v.tasks, root).Some? {
      WipeKeeps(v, z, root);
    } else if !Intact(v) {
      ShrinkKeeps(v, z, root);
    } else if root != 0 {
      DeleteElsewhere(v, root);
      assert z == v;
    } else {
      EmptyIdBreaks(v, z);
    }
  }

  // ── Every event, every history ─────────────────────────────────────────────────────────────

  lemma BeginCoupled(z: View, row: Row, t: Task)
    requires z.rows == [row] && z.tasks == [t] && 0 < t.id && t.parentId == 0 && t.stage == Some(row.stage)
    requires Recoveries(z.pend) == {}
    ensures CoupledIntact(z) && TasksOk(z.tasks)
  {
  }

  lemma BeginCore(v: View, z: View, row: Row, e: Effect)
    requires Accounts(v) && v.rows == [] && v.trail == []
    requires row.status == Running && row.stage == Learning && row.retryCount == 0 && e.Next? && e.at == row.updatedAt
    requires z.rows == [row] && z.trail == [e]
    requires CoupledIntact(z) && TasksOk(z.tasks)
    ensures Core(z) && Intact(z)
  {
    assert v.rows + [row] == [row] && v.trail + [e] == [e];
    TrailSums(v.trail, e);
    assert RowsOk(v.rows) && RowsOk(z.rows) && Intact(z) && Open(v.rows) == 0;
    hide CoupledIntact, TasksOk, RowsOk, Books, Budget, OnTime, Intact;
    assert Total(v.trail, Sent) == 0;
    SentAccounts(v, z, row, e);
  }

  lemma Unbegun(v: View)
    requires Inv(v) && v.trail == []
    ensures Recoveries(v.pend) == {} && Accounts(v)
  {
  }

  lemma BeginKeeps(v: View, run: nat, input: string, newId: nat, now: nat)
    requires Recoveries(v.pend) == {} && Accounts(v) && v.rows == [] && v.tasks == [] && v.trail == [] && 0 < newId
    ensures Inv(Began(v, run, input, newId, now))
  {
    hide Accounts, Core, Alone, Inv;
    var row, e := FreshRow(newId, run, Learning, "", input, now), Next(Learning, "", input, 0, now);
    var t := Task(newId + 1, run, 0, InProgress, Some(Learning));
    var z := View([row], [t], v.pend, [e]);
    assert [] + [row] == [row] && [] + [t] == [t] && [] + [e] == [e];
    assert Began(v, run, input, newId, now) == z;
    hide Began;
    BeginCoupled(z, row, t);
    hide CoupledIntact, TasksOk;
    BeginCore(v, z, row, e);
    AlongKeeps(z);
  }

  /** A started run whose task works on its running row. */
  lemma AlongKeeps(z: View)
    requires Core(z) && z.rows != [] && Last(z.rows).status == Running && Recoveries(z.pend) == {}
    requires Alone(z) ==> z.tasks[0].status == InProgress
    ensures Inv(z)
  {
    hide Core;
  }

  lemma StepKeeps(v: View, run: nat, e: Event)
    requires Inv(v) && run != 0 && Allowed(v, run, e)
    ensures Inv(Step(v, run, e))
  {
    hide OnResult, OnRecovery, Expire, OnDelete, Began, Divided, Inv;
    match e {
      case Begin(input, newId, now) =>
        Unbegun(v);
        BeginKeeps(v, run, input, newId, now);
      case Result(m, delivered, newId, now) => ResultKeeps(v, run, m, delivered, newId, now);
      case Recover(a, c, newId, now) => RecoverKeeps(v, run, a, c, newId, now);
      case Ask(task, newId) =>
        assert newId !in v.pend;
        ForgetKeeps(v, Step(v, run, e));
      case Split(request, task, agreed, count, newId) => SplitKeeps(v, run, request, task, agreed, count, newId);
      case Tick(now) => TickKeeps(v, run, now);
      case Delete(root) => DeleteKeepsIff(v, run, root);
      case Restart => ForgetKeeps(v, Step(v, run, e));
    }
  }

  /** The invariant holds in every state any allowed history can reach. */
  lemma {:induction false} Reachable(run: nat, es: seq<Event>)
    requires run != 0 && AllAllowed(run, es)
    ensures Inv(Replay(run, es))
  {
    if es != [] {
      hide Step, Inv;
      Reachable(run, Front(es));
      StepKeeps(Replay(run, Front(es)), run, Last(es));
    }
  }
}
