/** task_db.rs: the pipeline_runs, tasks, task_logs and task_memories tables and their statements. */
module TaskDb {
  import opened Basics
  import opened Stages
  import opened RunMachine
  import opened Tables

  class Database {
    var runs: seq<Row>
    var tasks: seq<Task>
    var logs: seq<LogEntry>
    var bindings: seq<Binding>
    var memories: seq<Memory>
    var tiers: seq<TierRow>
    var nextId: nat
    var nextMemoryId: nat

    ghost predicate Valid()
      reads this
    {
      0 < nextId && RowsSorted(runs, nextId) && TasksSorted(tasks, nextId)
    }

    constructor ()
      ensures Valid() && runs == [] && tasks == [] && logs == [] && bindings == [] && memories == [] && tiers == []
    {
      runs, tasks, logs, bindings, memories, tiers := [], [], [], [], [], [];
      nextId, nextMemoryId := 1, 1;
    }

    method FreshId() returns (id: nat)
      requires Valid()
      modifies this`nextId
      ensures Valid() && id == old(nextId) && nextId == old(nextId) + 1
    {
      id := nextId;
      nextId := nextId + 1;
    }

    // ── pipeline_runs ────────────────────────────────────────────────────────────────────────

    method CreatePipelineStage(run: nat, stage: Stage, artifact: string, input: string, now: nat) returns (row: Row)
      requires Valid()
      modifies this`runs, this`nextId
      ensures Valid() && nextId == old(nextId) + 1
      ensures row == FreshRow(old(nextId), run, stage, artifact, input, now)
      ensures forall c :: now <= c && Dated(old(runs), c) ==> Dated(runs, c)
      ensures forall r :: RowsOf(runs, r) == if r == run then RowsOf(old(runs), r) + [row] else RowsOf(old(runs), r)
    {
      var id := FreshId();
      row := FreshRow(id, run, stage, artifact, input, now);
      runs := runs + [row];
      forall r { RowsOfAppend(old(runs), row, r); }
    }

    /** UPDATE ... WHERE id = row.id, for a row that was read before: no other run is touched. */
    method PatchPipelineStage(row: Row, p: Patch, now: nat)
      requires Valid() && row in runs
      modifies this`runs
      ensures Valid()
      ensures forall c :: now <= c && Dated(old(runs), c) ==> Dated(runs, c)
      ensures forall r :: RowsOf(runs, r) == PatchRow(RowsOf(old(runs), r), row.id, p, now)
      ensures forall r :: r != row.runId ==> RowsOf(runs, r) == RowsOf(old(runs), r)
      ensures forall x :: x in old(runs) && x.id != row.id ==> x in runs
    {
      runs := PatchRow(runs, row.id, p, now);
      forall r { RowsOfPatch(old(runs), row.id, p, now, r); }
      forall r | r != row.runId { PatchElsewhere(old(runs), nextId, row, p, now, r); }
      forall x | x in old(runs) && x.id != row.id ensures x in runs {
        var i :| 0 <= i < |old(runs)| && old(runs)[i] == x;
        assert runs[i] == x;
      }
    }

    method UpdatePipelineStage(row: Row, status: RowStatus, agent: string, result: Option<string>,
                               error: Option<string>, now: nat)
      requires Valid() && row in runs
      modifies this`runs
      ensures Valid()
      ensures forall c :: now <= c && Dated(old(runs), c) ==> Dated(runs, c)
      ensures var outcome := Outcome(agent, Some(OrElse(result, "")), Some(OrElse(error, "")));
              forall r :: RowsOf(runs, r) == PatchRow(RowsOf(old(runs), r), row.id, Close(status, outcome), now)
      ensures forall r :: r != row.runId ==> RowsOf(runs, r) == RowsOf(old(runs), r)
      ensures forall x :: x in old(runs) && x.id != row.id ==> x in runs
    {
      PatchPipelineStage(row, Close(status, Outcome(agent, Some(OrElse(result, "")), Some(OrElse(error, "")))), now);
    }

    method RetryPipelineStage(row: Row, now: nat)
      requires Valid() && row in runs
      modifies this`runs
      ensures Valid()
      ensures forall c :: now <= c && Dated(old(runs), c) ==> Dated(runs, c)
      ensures forall r :: RowsOf(runs, r) == PatchRow(RowsOf(old(runs), r), row.id, Reopen, now)
      ensures forall r :: r != row.runId ==> RowsOf(runs, r) == RowsOf(old(runs), r)
    {
      PatchPipelineStage(row, Reopen, now);
    }

    method GetPipelineRunStages(run: nat) returns (stages: seq<Row>)
      ensures stages == RowsOf(runs, run)
      ensures forall x :: x in stages ==> x in runs && x.runId == run
    {
      stages := [];
      for i := 0 to |runs|
        invariant stages == RowsOf(runs[..i], run)
        invariant forall x :: x in stages ==> x in runs && x.runId == run
      {
        assert runs[..i + 1] == runs[..i] + [runs[i]];
        RowsOfAppend(runs[..i], runs[i], run);
        if runs[i].runId == run {
          stages := stages + [runs[i]];
        }
      }
      assert runs[..|runs|] == runs;
    }

    /** The retry count of the row of this stage with the latest creation stamp. */
    method GetStageRetryCount(run: nat, stage: Stage) returns (count: nat)
      requires Valid()
      ensures count == RetryCountOf(RowsOf(runs, run), Some(stage))
      ensures forall j :: NewestAt(RowsOf(runs, run), Some(stage), j) ==> count == RowsOf(runs, run)[j].retryCount
      ensures NoneAt(RowsOf(runs, run), Some(stage)) ==> count == 0
    {
      NewestPlace(RowsOf(runs, run), stage);
      var newest: Option<Row> := None;
      for i := 0 to |runs|
        invariant newest == NewestOf(RowsOf(runs[..i], run), stage)
        invariant newest.Some? ==> newest.value in runs[..i]
      {
        assert runs[..i + 1] == runs[..i] + [runs[i]];
        RowsOfAppend(runs[..i], runs[i], run);
        NewestAppend(RowsOf(runs[..i], run), runs[i], stage);
        if runs[i].runId == run && runs[i].stage == stage && (newest.None? || newest.value.id < runs[i].id) {
          newest := Some(runs[i]);
        }
      }
      assert runs[..|runs|] == runs;
      count := if newest.Some? then newest.value.retryCount else 0;
    }

    method GetTimedOutStages(now: nat) returns (stale: seq<Row>)
      ensures stale == StaleRows(runs, now)
    {
      stale := [];
      for i := 0 to |runs|
        invariant stale == StaleRows(runs[..i], now)
      {
        assert runs[..i + 1] == runs[..i] + [runs[i]];
        StaleAppend(runs[..i], runs[i], now);
        if runs[i].status == Running && runs[i].updatedAt < now - STAGE_TIMEOUT {
          stale := stale + [runs[i]];
        }
      }
      assert runs[..|runs|] == runs;
    }

    // ── tasks ────────────────────────────────────────────────────────────────────────────────

    method CreateTask(run: nat, parent: nat, status: TaskStatus, stage: Option<Stage>) returns (t: Task)
      requires Valid()
      modifies this`tasks, this`nextId
      ensures Valid() && nextId == old(nextId) + 1
      ensures t == Task(old(nextId), run, parent, status, stage) && tasks == old(tasks) + [t]
      ensures forall id: nat, r: nat :: id < old(nextId) && Home(old(tasks), id, r) ==> Home(tasks, id, r)
      ensures forall r :: TasksOf(tasks, r) == if r == run then TasksOf(old(tasks), r) + [t] else TasksOf(old(tasks), r)
    {
      var id := FreshId();
      t := Task(id, run, parent, status, stage);
      tasks := tasks + [t];
      forall r { TasksOfAppend(old(tasks), t, r); }
    }

    method UpdateTask(id: nat, status: Option<TaskStatus>, stage: Option<Stage>)
      requires Valid()
      modifies this`tasks
      ensures Valid() && tasks == SetTask(old(tasks), id, status, stage)
      ensures forall r :: TasksOf(tasks, r) == SetTask(TasksOf(old(tasks), r), id, status, stage)
      ensures forall x, r :: x in old(tasks) && x.id == id && x.runId != r ==>
                               TasksOf(tasks, r) == TasksOf(old(tasks), r)
      ensures forall x :: x in old(tasks) ==> (if x.id == id then Edited(x, status, stage) else x) in tasks
      ensures forall i: nat, r: nat :: Home(old(tasks), i, r) ==> Home(tasks, i, r)
    {
      tasks := SetTask(tasks, id, status, stage);
      forall x | x in old(tasks) ensures (if x.id == id then Edited(x, status, stage) else x) in tasks {
        var i :| 0 <= i < |old(tasks)| && old(tasks)[i] == x;
        assert tasks[i] in tasks;
      }
      forall r { TasksOfSet(old(tasks), id, status, stage, r); }
      forall x, r | x in old(tasks) && x.id == id && x.runId != r {
        SetElsewhere(old(tasks), nextId, x, status, stage, r);
      }
    }

    method GetTask(id: nat) returns (t: Option<Task>)
      ensures t == FindTask(tasks, id)
    {
      var i := |tasks|;
      t := None;
      assert tasks[..i] == tasks;
      while i > 0 && t.None?
        invariant 0 <= i <= |tasks|
        invariant t == None ==> FindTask(tasks, id) == FindTask(tasks[..i], id)
        invariant t.Some? ==> t == FindTask(tasks, id)
      {
        i := i - 1;
        assert Front(tasks[..i + 1]) == tasks[..i];
        if tasks[i].id == id {
          t := Some(tasks[i]);
        }
      }
    }

    /** The task of the run with the latest creation stamp. */
    method GetTaskByRunId(run: nat) returns (t: Option<Task>)
      requires Valid()
      ensures t == Newest(TasksOf(tasks, run))
      ensures t.Some? ==> t.value in tasks && t.value.runId == run
      ensures IdOf(t) < nextId && Home(tasks, IdOf(t), run)
    {
      t := None;
      for i := 0 to |tasks|
        invariant t == Newest(TasksOf(tasks[..i], run))
        invariant t.Some? ==> t.value in tasks[..i] && t.value.runId == run
      {
        assert tasks[..i + 1] == tasks[..i] + [tasks[i]];
        TasksOfAppend(tasks[..i], tasks[i], run);
        if tasks[i].runId == run && (t.None? || t.value.id < tasks[i].id) {
          t := Some(tasks[i]);
        }
      }
      assert tasks[..|tasks|] == tasks;
    }

    // ── Cascade delete ───────────────────────────────────────────────────────────────────────

    method ListChildIds(root: nat) returns (ids: seq<nat>)
      ensures ids == ChildIds(tasks, root)
    {
      ids := [];
      for i := 0 to |tasks|
        invariant ids == ChildIds(tasks[..i], root)
      {
        assert Front(tasks[..i + 1]) == tasks[..i];
        if tasks[i].parentId == root {
          ids := ids + [tasks[i].id];
        }
      }
      assert tasks[..|tasks|] == tasks;
    }

    /** The loop of the cascade: bindings, logs and task of one id after the other. */
    method DeleteEach(ids: seq<nat>) returns (count: nat)
      modifies this`tasks, this`logs, this`bindings
      ensures tasks == Minus(old(tasks), TaskKey, ids)
      ensures logs == Minus(old(logs), LogKey, ids) && bindings == Minus(old(bindings), BindingKey, ids)
      ensures count == |old(tasks)| - |tasks|
    {
      count := 0;
      MinusNone(tasks, TaskKey);
      MinusNone(logs, LogKey);
      MinusNone(bindings, BindingKey);
      for k := 0 to |ids|
        invariant tasks == Minus(old(tasks), TaskKey, ids[..k])
        invariant logs == Minus(old(logs), LogKey, ids[..k])
        invariant bindings == Minus(old(bindings), BindingKey, ids[..k])
        invariant count == |old(tasks)| - |tasks|
      {
        hide Minus;
        var before := |tasks|;
        assert ids[..k + 1] == ids[..k] + [ids[k]];
        MinusOneMore(old(tasks), TaskKey, ids[..k], ids[k]);
        MinusOneMore(old(logs), LogKey, ids[..k], ids[k]);
        MinusOneMore(old(bindings), BindingKey, ids[..k], ids[k]);
        MinusSize(tasks, TaskKey, [ids[k]]);
        bindings := Minus(bindings, BindingKey, [ids[k]]);
        logs := Minus(logs, LogKey, [ids[k]]);
        tasks := Minus(tasks, TaskKey, [ids[k]]);
        count := count + before - |tasks|;
      }
      assert ids[..|ids|] == ids;
    }

    /** Deletes the root, its direct children, their logs and bindings, and the pipeline rows of
        the root's run; everything else stays. Returns how many tasks went. */
    method DeleteTaskCascade(root: nat) returns (count: nat, ids: seq<nat>)
      requires Valid()
      modifies this`tasks, this`logs, this`bindings, this`runs
      ensures Valid()
      ensures ids == [root] + ChildIds(old(tasks), root)
      ensures tasks == Without(old(tasks), root)
      ensures forall id: nat, r: nat :: Home(old(tasks), id, r) ==> Home(tasks, id, r)
      ensures count == |old(tasks)| - |tasks|
      ensures logs == Minus(old(logs), LogKey, ids) && bindings == Minus(old(bindings), BindingKey, ids)
      ensures forall l :: l in logs <==> l in old(logs) && l.task !in ids
      ensures forall b :: b in bindings <==> b in old(bindings) && b.task !in ids
      ensures var found := FindTask(old(tasks), root);
              runs == if found.Some? && found.value.runId != 0 then WithoutRun(old(runs), found.value.runId)
                      else old(runs)
      ensures forall c: nat :: Dated(old(runs), c) ==> Dated(runs, c)
    {
      var found := GetTask(root);
      var run := if found.Some? then found.value.runId else 0;
      var children := ListChildIds(root);
      ids := [root] + children;
      assert tasks[..|tasks|] == tasks;
      MinusFamily(tasks, nextId, root, |tasks|);
      WithoutSortedTable(tasks, nextId, root);
      forall id: nat, r: nat | Home(tasks, id, r) { WithoutHome(tasks, root, id, r); }
      WithoutRunSorted(runs, nextId, run);
      forall c: nat | Dated(runs, c) { WithoutRunDated(runs, run, c); }
      forall l { MinusMembers(logs, LogKey, ids, l); }
      forall b { MinusMembers(bindings, BindingKey, ids, b); }
      hide Minus, Without, WithoutRun, TasksSorted, RowsSorted, Home, Dated;
      count := DeleteEach(ids);
      if run != 0 {
        runs := WithoutRun(runs, run);
      }
    }
  }

  lemma NewestAppend(rows: seq<Row>, x: Row, stage: Stage)
    ensures NewestOf(rows + [x], stage) == if x.stage == stage then Some(x) else NewestOf(rows, stage)
  {
    assert Front(rows + [x]) == rows;
  }

  lemma {:induction false} WithoutSortedTable(tasks: seq<Task>, bound: nat, root: nat)
    requires TasksSorted(tasks, bound)
    ensures TasksSorted(Without(tasks, root), bound)
  {
    if tasks != [] {
      var rest := Without(Front(tasks), root);
      WithoutSortedTable(Front(tasks), bound, root);
      forall i | 0 <= i < |rest| ensures rest[i].id < Last(tasks).id {
        assert rest[i] in rest;
      }
    }
  }

  lemma WithoutHome(tasks: seq<Task>, root: nat, id: nat, r: nat)
    requires Home(tasks, id, r)
    ensures Home(Without(tasks, root), id, r)
  {
    var kept := Without(tasks, root);
    forall i | 0 <= i < |kept| && kept[i].id == id ensures kept[i].runId == r {
      assert kept[i] in kept;
    }
  }

  lemma {:induction false} WithoutRunMembers(rows: seq<Row>, run: nat, i: nat)
    requires i < |WithoutRun(rows, run)|
    ensures WithoutRun(rows, run)[i] in rows
  {
    if i < |WithoutRun(Front(rows), run)| { WithoutRunMembers(Front(rows), run, i); }
  }

  lemma WithoutRunDated(rows: seq<Row>, run: nat, c: nat)
    requires Dated(rows, c)
    ensures Dated(WithoutRun(rows, run), c)
  {
    forall i | 0 <= i < |WithoutRun(rows, run)| ensures WithoutRun(rows, run)[i].updatedAt <= c {
      WithoutRunMembers(rows, run, i);
    }
  }

  lemma {:induction false} WithoutRunSorted(rows: seq<Row>, bound: nat, run: nat)
    requires RowsSorted(rows, bound)
    ensures RowsSorted(WithoutRun(rows, run), bound)
  {
    if rows != [] {
      var rest := WithoutRun(Front(rows), run);
      WithoutRunSorted(Front(rows), bound, run);
      forall i | 0 <= i < |rest| ensures rest[i].id < Last(rows).id {
        WithoutRunMembers(Front(rows), run, i);
      }
    }
  }
}
