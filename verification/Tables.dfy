/** The shared tables and the part of them that belongs to one run. */
module Tables {
  import opened Basics
  import opened Stages
  import opened RunMachine

  datatype LogEntry = LogEntry(task: nat, text: string)
  datatype Binding = Binding(task: nat, memory: nat)

  /** The key of a memory extracted from a stage, or any other text. */
  datatype MemoryKey = PipelineKey(run: nat, stage: Stage, artifact: string) | TextKey(text: string)
  datatype Memory = Memory(id: nat, scope: string, category: string, key: MemoryKey, agent: string, run: nat)
  datatype TierRow = TierRow(id: nat, memory: nat, tier: string, content: string)

  /** SELECT ... FROM pipeline_runs WHERE run_id = r, in creation order. */
  function RowsOf(rows: seq<Row>, r: nat): seq<Row>
  {
    if rows == [] then []
    else if Last(rows).runId == r then RowsOf(Front(rows), r) + [Last(rows)]
    else RowsOf(Front(rows), r)
  }

  /** SELECT ... FROM tasks WHERE run_id = r, in creation order. */
  function TasksOf(tasks: seq<Task>, r: nat): seq<Task>
  {
    if tasks == [] then []
    else if Last(tasks).runId == r then TasksOf(Front(tasks), r) + [Last(tasks)]
    else TasksOf(Front(tasks), r)
  }

  /** DELETE FROM pipeline_runs WHERE run_id = run. */
  function WithoutRun(rows: seq<Row>, run: nat): seq<Row>
  {
    if rows == [] then []
    else if Last(rows).runId != run then WithoutRun(Front(rows), run) + [Last(rows)]
    else WithoutRun(Front(rows), run)
  }

  function TaskKey(t: Task): nat { t.id }

  function LogKey(l: LogEntry): nat { l.task }

  function BindingKey(b: Binding): nat { b.task }

  /** DELETE FROM s WHERE key in gone. */
  function Minus<T>(s: seq<T>, key: T -> nat, gone: seq<nat>): seq<T> {
    if s == [] then []
    else if key(Last(s)) !in gone then Minus(Front(s), key, gone) + [Last(s)]
    else Minus(Front(s), key, gone)
  }

  /** The ids of the direct children of a task, in creation order. */
  function ChildIds(tasks: seq<Task>, root: nat): seq<nat> {
    if tasks == [] then []
    else if Last(tasks).parentId == root then ChildIds(Front(tasks), root) + [Last(tasks).id]
    else ChildIds(Front(tasks), root)
  }

  /** Every insertion draws a larger id, so table order is creation order. */
  ghost predicate RowsSorted(rows: seq<Row>, bound: nat) {
    && (forall i, j :: 0 <= i < j < |rows| ==> rows[i].id < rows[j].id)
    && (forall i :: 0 <= i < |rows| ==> 0 < rows[i].id < bound)
  }

  ghost predicate TasksSorted(tasks: seq<Task>, bound: nat) {
    && (forall i, j :: 0 <= i < j < |tasks| ==> tasks[i].id < tasks[j].id)
    && (forall i :: 0 <= i < |tasks| ==> 0 < tasks[i].id < bound)
  }

  /** No row was touched after c. */
  ghost predicate Dated(rows: seq<Row>, c: nat) {
    forall i :: 0 <= i < |rows| ==> rows[i].updatedAt <= c
  }

  /** A task of this id, if there is one, belongs to run r. */
  ghost predicate Home(tasks: seq<Task>, id: nat, r: nat) {
    forall i :: 0 <= i < |tasks| && tasks[i].id == id ==> tasks[i].runId == r
  }

  // ── Selecting a run commutes with every statement ──────────────────────────────────────────

  lemma {:induction false} RowsOfMembers(rows: seq<Row>, r: nat, i: nat)
    requires i < |RowsOf(rows, r)|
    ensures RowsOf(rows, r)[i] in rows && RowsOf(rows, r)[i].runId == r
  {
    if i < |RowsOf(Front(rows), r)| { RowsOfMembers(Front(rows), r, i); }
  }

  lemma {:induction false} TasksOfMembers(tasks: seq<Task>, r: nat, i: nat)
    requires i < |TasksOf(tasks, r)|
    ensures TasksOf(tasks, r)[i] in tasks && TasksOf(tasks, r)[i].runId == r
  {
    if i < |TasksOf(Front(tasks), r)| { TasksOfMembers(Front(tasks), r, i); }
  }

  lemma RowsOfAppend(rows: seq<Row>, x: Row, r: nat)
    ensures RowsOf(rows + [x], r) == if x.runId == r then RowsOf(rows, r) + [x] else RowsOf(rows, r)
  {
    assert Front(rows + [x]) == rows;
  }

  lemma TasksOfAppend(tasks: seq<Task>, x: Task, r: nat)
    ensures TasksOf(tasks + [x], r) == if x.runId == r then TasksOf(tasks, r) + [x] else TasksOf(tasks, r)
  {
    assert Front(tasks + [x]) == tasks;
  }

  lemma StaleAppend(rows: seq<Row>, x: Row, now: nat)
    ensures StaleRows(rows + [x], now) == if Stale(x, now) then StaleRows(rows, now) + [x] else StaleRows(rows, now)
  {
    assert Front(rows + [x]) == rows;
  }

  lemma PatchAppend(rows: seq<Row>, x: Row, id: nat, p: Patch, now: nat)
    ensures PatchRow(rows + [x], id, p, now) == PatchRow(rows, id, p, now) + PatchRow([x], id, p, now)
  {
  }

  lemma SetAppend(tasks: seq<Task>, x: Task, id: nat, s: Option<TaskStatus>, g: Option<Stage>)
    ensures SetTask(tasks + [x], id, s, g) == SetTask(tasks, id, s, g) + SetTask([x], id, s, g)
  {
  }

  lemma {:induction false} RowsOfPatch(rows: seq<Row>, id: nat, p: Patch, now: nat, r: nat)
    ensures RowsOf(PatchRow(rows, id, p, now), r) == PatchRow(RowsOf(rows, r), id, p, now)
  {
    if rows != [] {
      var front, last := Front(rows), Last(rows);
      var last' := PatchRow([last], id, p, now)[0];
      assert rows == front + [last];
      RowsOfPatch(front, id, p, now, r);
      PatchAppend(front, last, id, p, now);
      assert PatchRow([last], id, p, now) == [last'] && last'.runId == last.runId;
      RowsOfAppend(PatchRow(front, id, p, now), last', r);
      PatchAppend(RowsOf(front, r), last, id, p, now);
      hide PatchRow;
    }
  }

  lemma {:induction false} TasksOfSet(tasks: seq<Task>, id: nat, s: Option<TaskStatus>, g: Option<Stage>, r: nat)
    ensures TasksOf(SetTask(tasks, id, s, g), r) == SetTask(TasksOf(tasks, r), id, s, g)
  {
    if tasks != [] {
      var front, last := Front(tasks), Last(tasks);
      var last' := SetTask([last], id, s, g)[0];
      assert tasks == front + [last];
      TasksOfSet(front, id, s, g, r);
      SetAppend(front, last, id, s, g);
      assert SetTask([last], id, s, g) == [last'] && last'.runId == last.runId;
      TasksOfAppend(SetTask(front, id, s, g), last', r);
      SetAppend(TasksOf(front, r), last, id, s, g);
      hide SetTask;
    }
  }

  lemma {:induction false} TasksOfWithout(tasks: seq<Task>, root: nat, r: nat)
    ensures TasksOf(Without(tasks, root), r) == Without(TasksOf(tasks, r), root)
  {
    if tasks != [] {
      var front, last := Front(tasks), Last(tasks);
      TasksOfWithout(front, root, r);
      TasksOfAppend(Without(front, root), last, r);
      WithoutAppend(TasksOf(front, r), last, root);
    }
  }

  lemma {:induction false} RowsOfWithoutRun(rows: seq<Row>, run: nat, r: nat)
    ensures RowsOf(WithoutRun(rows, run), r) == if r == run then [] else RowsOf(rows, r)
  {
    if rows != [] {
      var front, last := Front(rows), Last(rows);
      RowsOfWithoutRun(front, run, r);
      RowsOfAppend(WithoutRun(front, run), last, r);
    }
  }

  lemma {:induction false} StaleRowsOf(rows: seq<Row>, now: nat, r: nat)
    ensures RowsOf(StaleRows(rows, now), r) == StaleRows(RowsOf(rows, r), now)
  {
    if rows != [] {
      var front, last := Front(rows), Last(rows);
      StaleRowsOf(front, now, r);
      RowsOfAppend(StaleRows(front, now), last, r);
      StaleAppend(RowsOf(front, r), last, now);
    }
  }

  /** Ids are unique across runs, so a statement about one row or task leaves other runs alone. */
  lemma PatchElsewhere(rows: seq<Row>, bound: nat, x: Row, p: Patch, now: nat, r: nat)
    requires RowsSorted(rows, bound) && x in rows && x.runId != r
    ensures PatchRow(RowsOf(rows, r), x.id, p, now) == RowsOf(rows, r)
  {
    forall i | 0 <= i < |RowsOf(rows, r)| ensures RowsOf(rows, r)[i].id != x.id {
      RowsOfMembers(rows, r, i);
    }
  }

  lemma SetElsewhere(tasks: seq<Task>, bound: nat, x: Task, s: Option<TaskStatus>, g: Option<Stage>, r: nat)
    requires TasksSorted(tasks, bound) && x in tasks && x.runId != r
    ensures SetTask(TasksOf(tasks, r), x.id, s, g) == TasksOf(tasks, r)
  {
    forall i | 0 <= i < |TasksOf(tasks, r)| ensures TasksOf(tasks, r)[i].id != x.id {
      TasksOfMembers(tasks, r, i);
    }
  }

  /** A lookup by id over the whole table and over one run agree about tasks of that run. */
  lemma {:induction false} FindInRun(tasks: seq<Task>, bound: nat, id: nat, r: nat)
    requires TasksSorted(tasks, bound)
    ensures FindTask(TasksOf(tasks, r), id) ==
            if FindTask(tasks, id).Some? && FindTask(tasks, id).value.runId == r then FindTask(tasks, id) else None
  {
    if tasks != [] {
      var last := Last(tasks);
      FindInRun(Front(tasks), bound, id, r);
      if last.runId == r {
        assert Front(TasksOf(tasks, r)) == TasksOf(Front(tasks), r);
      } else if last.id == id {
        FreshInRun(Front(tasks), id, r);
      }
    }
  }

  lemma {:induction false} FreshInRun(tasks: seq<Task>, id: nat, r: nat)
    requires forall i :: 0 <= i < |tasks| ==> tasks[i].id != id
    ensures FindTask(TasksOf(tasks, r), id) == None
  {
    forall i | 0 <= i < |TasksOf(tasks, r)| ensures TasksOf(tasks, r)[i].id != id {
      TasksOfMembers(tasks, r, i);
    }
  }

  // ── Cascade delete ─────────────────────────────────────────────────────────────────────────

  lemma MinusAppend<T>(s: seq<T>, x: T, key: T -> nat, gone: seq<nat>)
    ensures Minus(s + [x], key, gone) == if key(x) !in gone then Minus(s, key, gone) + [x] else Minus(s, key, gone)
  {
    assert Front(s + [x]) == s;
  }

  /** Deleting one more id from what is left is deleting the longer list at once. */
  lemma {:induction false} MinusOneMore<T>(s: seq<T>, key: T -> nat, gone: seq<nat>, id: nat)
    ensures Minus(Minus(s, key, gone), key, [id]) == Minus(s, key, gone + [id])
  {
    if s != [] {
      var front, last := Front(s), Last(s);
      MinusOneMore(front, key, gone, id);
      if key(last) !in gone { MinusAppend(Minus(front, key, gone), last, key, [id]); }
    }
  }

  lemma {:induction false} MinusNone<T>(s: seq<T>, key: T -> nat)
    ensures Minus(s, key, []) == s
  {
    if s != [] {
      MinusNone(Front(s), key);
      assert s == Front(s) + [Last(s)];
    }
  }

  lemma {:induction false} MinusMembers<T>(s: seq<T>, key: T -> nat, gone: seq<nat>, x: T)
    ensures x in Minus(s, key, gone) <==> x in s && key(x) !in gone
  {
    if s != [] {
      MinusMembers(Front(s), key, gone, x);
      assert s == Front(s) + [Last(s)];
    }
  }

  /** Something goes exactly when there was something to delete. */
  lemma {:induction false} MinusSize<T>(s: seq<T>, key: T -> nat, gone: seq<nat>)
    ensures |Minus(s, key, gone)| <= |s|
    ensures |Minus(s, key, gone)| < |s| <==> exists i :: 0 <= i < |s| && key(s[i]) in gone
  {
    if s != [] {
      MinusSize(Front(s), key, gone);
      assert forall i :: 0 <= i < |Front(s)| ==> Front(s)[i] == s[i];
    }
  }

  lemma {:induction false} ChildIdsExact(tasks: seq<Task>, root: nat, id: nat)
    ensures id in ChildIds(tasks, root) <==>
            exists i :: 0 <= i < |tasks| && tasks[i].parentId == root && tasks[i].id == id
  {
    if tasks != [] {
      ChildIdsExact(Front(tasks), root, id);
      if id in ChildIds(Front(tasks), root) {
        var i :| 0 <= i < |Front(tasks)| && Front(tasks)[i].parentId == root && Front(tasks)[i].id == id;
        assert tasks[i].parentId == root && tasks[i].id == id;
      }
    }
  }

  /** Ids being unique, deleting the root and its children by id is deleting by parent link. */
  lemma {:induction false} MinusFamily(all: seq<Task>, bound: nat, root: nat, k: nat)
    requires TasksSorted(all, bound) && k <= |all|
    ensures Minus(all[..k], TaskKey, [root] + ChildIds(all, root)) == Without(all[..k], root)
  {
    if k == 0 {
    } else {
      var last, ids := all[k - 1], [root] + ChildIds(all, root);
      assert all[..k] == all[..k - 1] + [last];
      MinusFamily(all, bound, root, k - 1);
      MinusAppend(all[..k - 1], last, TaskKey, ids);
      WithoutAppend(all[..k - 1], last, root);
      ChildIdsExact(all, root, last.id);
      assert last.id in ids <==> !Spared(last, root);
    }
  }
}
