/**
 * Five histories of a run, each allowed but for one event, after which a closed row runs again or two
 * rows run at once: a recovery response that answers a decomposition request, one that does so after a
 * timeout, one that answers a request of another run, one that names a task of another run, and a
 * deletion that names the empty task id.
 */
module RunHistories {
  import opened Basics
  import opened Stages
  import opened RunMachine
  import opened RunInvariants
  import opened RunTheorems
  import opened RunLimits

  // ── Building the histories ──

  function Report(stage: Stage, status: RowStatus): StageResult {
    StageResult(stage, status, "", "", "", None, 0)
  }

  /** The outcome of a row that these histories leave in a status. */
  function OutcomeOf(status: RowStatus): Outcome {
    match status
    case Running => Outcome("", None, None)
    case TimedOut => Outcome("", Some(""), Some("stage timed out"))
    case _ => Outcome("", Some(""), Some(""))
  }

  function At(id: nat, stage: Stage, status: RowStatus): Row {
    Row(id, 1, stage, "", "", OutcomeOf(status), status, 0, 0)
  }

  function Sent1(stage: Stage): Effect {
    Next(stage, "", "", 0, 0)
  }

  function Done1(stage: Stage): Effect {
    Accepted(Report(stage, Completed))
  }

  lemma WithoutFirst(a: Task, b: Task, c: Task, d: Task)
    requires !Spared(a, 0) && Spared(b, 0) && Spared(c, 0) && Spared(d, 0)
    ensures Without([a, b, c, d], 0) == [b, c, d]
  {
    assert [] + [a] == [a] && [a] + [b] == [a, b] && [a, b] + [c] == [a, b, c] && [a, b, c] + [d] == [a, b, c, d];
    WithoutAppend([], a, 0);
    WithoutAppend([a], b, 0);
    WithoutAppend([a, b], c, 0);
    WithoutAppend([a, b, c], d, 0);
  }

  lemma WithoutOuter(a: Task, b: Task, c: Task, root: nat)
    requires !Spared(a, root) && Spared(b, root) && !Spared(c, root)
    ensures Without([a, b, c], root) == [b]
  {
    assert [] + [a] == [a] && [a] + [b] == [a, b] && [a, b] + [c] == [a, b, c];
    WithoutAppend([], a, root);
    WithoutAppend([a], b, root);
    WithoutAppend([a, b], c, root);
  }

  /** The state after a prefix of a history, given the state before its last event. */
  lemma Extend(all: seq<Event>, k: nat, v: View)
    requires k < |all| && Replay(1, all[..k]) == v
    ensures Replay(1, all[..k + 1]) == Step(v, 1, all[k])
    ensures AllAllowed(1, all[..k + 1]) <==> AllAllowed(1, all[..k]) && Allowed(v, 1, all[k])
  {
    assert Front(all[..k + 1]) == all[..k] && Last(all[..k + 1]) == all[k];
    hide Step, Allowed;
  }

  // ── How they all begin ──

  /** A run is started and a decomposition of its main task is requested. */
  const BEGUN: seq<Event> := [Begin("", 1, 0), Ask(2, 3)]

  const STARTED: View := View([At(1, Learning, Running)], [Task(2, 1, 0, InProgress, Some(Learning))],
                        map[], [Sent1(Learning)])

  const ASKED: View := View([At(1, Learning, Running)], [Task(2, 1, 0, InProgress, Some(Learning))],
                      map[3 := Request(ForDecompose, 2)], [Sent1(Learning)])

  lemma AfterBegun(all: seq<Event>)
    requires |all| >= 2 && all[0] == BEGUN[0] && all[1] == BEGUN[1]
    ensures AllAllowed(1, all[..2]) && Replay(1, all[..2]) == ASKED
  {
    assert all[..0] == [];
    Extend(all, 0, EMPTY);
    assert Replay(1, all[..1]) == STARTED && AllAllowed(1, all[..1]);
    hide Replay, AllAllowed;
    Extend(all, 1, STARTED);
  }

  // ── A recovery response that answers a decomposition request ──

  const WRONG: seq<Event> := BEGUN + [
    Ask(2, 4),
    Event.Split(4, 2, true, 1, 5),
    Result(Report(Learning, Completed), true, 6, 0),
    Recover(Advice(3, 1, 2, Retry, "", 0), Context(true, Some(WRONG_5.tasks[0]), WRONG_5.rows), 7, 0)
  ]

  const WRONG_3: View := View([At(1, Learning, Running)], [Task(2, 1, 0, InProgress, Some(Learning))],
    map[3 := Request(ForDecompose, 2), 4 := Request(ForDecompose, 2)], [Sent1(Learning)])

  lemma WrongAfter3()
    ensures AllAllowed(1, WRONG[..3]) && Replay(1, WRONG[..3]) == WRONG_3
  {
    hide Replay, AllAllowed;
    AfterBegun(WRONG);
    Extend(WRONG, 2, ASKED);
  }

  const WRONG_4: View := View([At(1, Learning, Running)],
    [Task(2, 1, 0, Decomposed, Some(Learning)), Task(5, 1, 2, Pending, None)],
    map[3 := Request(ForDecompose, 2)], [Sent1(Learning)])

  lemma WrongAfter4()
    ensures AllAllowed(1, WRONG[..4]) && Replay(1, WRONG[..4]) == WRONG_4
  {
    hide Replay, AllAllowed;
    WrongAfter3();
    Extend(WRONG, 3, WRONG_3);
  }

  const WRONG_5: View := View([At(1, Learning, Completed), At(6, Building, Running)],
    [Task(2, 1, 0, Decomposed, Some(Learning)), Task(5, 1, 2, Pending, Some(Building))],
    map[3 := Request(ForDecompose, 2)], [Sent1(Learning), Done1(Learning), Sent1(Building)])

  lemma WrongAfter5()
    ensures AllAllowed(1, WRONG[..5]) && Replay(1, WRONG[..5]) == WRONG_5
  {
    hide Replay, AllAllowed;
    WrongAfter4();
    Extend(WRONG, 4, WRONG_4);
  }

  /** Two rows run at once after a decomposition request was answered on the recovery event. */
  lemma WrongAnswerReopens()
    ensures AllAllowed(1, WRONG[..5]) && WRONG[5].Recover? && Feasible(Replay(1, WRONG[..5]), 1, WRONG[5])
    ensures !Honest(Replay(1, WRONG[..5]), 1, WRONG[5].advice, WRONG[5].context)
    ensures var rows := Replay(1, WRONG).rows;
            |rows| == 2 && rows[0].status == Running && rows[1].status == Running
  {
    WrongAfter5();
    ReopensLearning(WRONG, WRONG[5].advice, 7);
  }

  /** From the state above, a retry of the learning stage that names the run and its main task reopens the
      completed row beside the running one. */
  lemma ReopensLearning(all: seq<Event>, a: Advice, newId: nat)
    requires |all| == 6 && Replay(1, all[..5]) == WRONG_5 && a.task == 2 && a.action == Retry && a.run == 1
    requires all[5] == Recover(a, Context(true, Some(WRONG_5.tasks[0]), WRONG_5.rows), newId, 0) && 6 < newId
    ensures Feasible(WRONG_5, 1, all[5])
    ensures var rows := Replay(1, all).rows;
            |rows| == 2 && rows[0].status == Running && rows[1].status == Running
  {
    Extend(all, 5, WRONG_5);
    assert all[..6] == all;
    hide Replay, AllAllowed;
    LearningAgain();
    hide Decide, FindTask;
  }

  lemma LearningAgain()
    ensures var t := Some(WRONG_5.tasks[0]);
            FindTask(WRONG_5.tasks, 2) == t && Decide(WRONG_5.rows, t, Retry) == Again(WRONG_5.rows[0])
  {
  }

  // ── A response that answers a request of another run ──

  const STRAY: seq<Event> := WRONG[..5] + [
    Recover(Advice(99, 1, 2, Retry, "", 0), Context(true, Some(WRONG_5.tasks[0]), WRONG_5.rows), 100, 0)
  ]

  /** No request of the run is consumed, and yet two of its rows run at once. */
  lemma StrayAnswerReopens()
    ensures AllAllowed(1, STRAY[..5]) && STRAY[5].Recover? && Feasible(Replay(1, STRAY[..5]), 1, STRAY[5])
    ensures STRAY[5].advice.request !in Replay(1, STRAY[..5]).pend
    ensures var rows := Replay(1, STRAY).rows;
            |rows| == 2 && rows[0].status == Running && rows[1].status == Running
  {
    assert STRAY[..5] == WRONG[..5];
    WrongAfter5();
    ReopensLearning(STRAY, STRAY[5].advice, 100);
  }

  // ── A response that names a task of another run ──

  const FOREIGN := Task(60, 50, 0, InProgress, Some(Evaluation))

  const FOSTERED: seq<Event> := BEGUN + [
    Recover(Advice(3, 1, 60, Skip, "", 0), Context(true, Some(FOREIGN), ASKED.rows), 61, 0)
  ]

  /** The stage of a task of another run is skipped here, beside the running row. */
  lemma ForeignTaskAdvances()
    ensures AllAllowed(1, FOSTERED[..2]) && FOSTERED[2].Recover? && Feasible(Replay(1, FOSTERED[..2]), 1, FOSTERED[2])
    ensures FindTask(Replay(1, FOSTERED[..2]).tasks, FOSTERED[2].advice.task) == None
    ensures var rows := Replay(1, FOSTERED).rows;
            |rows| == 2 && rows[0].status == Running && rows[1].status == Running
  {
    AfterBegun(FOSTERED);
    Extend(FOSTERED, 2, ASKED);
    assert FOSTERED[..3] == FOSTERED;
    hide Replay, AllAllowed;
    ForeignSkip();
    hide Decide, FindTask;
  }

  lemma ForeignSkip()
    ensures FindTask(ASKED.tasks, 60) == None && Decide(ASKED.rows, Some(FOREIGN), Skip) == Onward(SkillManage)
  {
  }

  // ── A response that retries a row which has timed out ──

  const LATE: seq<Event> := BEGUN + [
    Tick(400_000_000_000),
    Recover(Advice(3, 1, 2, Retry, "", 0), Context(true, Some(LATE_3.tasks[0]), LATE_3.rows), 4, 400_000_000_000)
  ]

  const LATE_3: View := View(
    [At(1, Learning, TimedOut).(updatedAt := 400_000_000_000)], [Task(2, 1, 0, Broken, Some(Learning))],
    map[3 := Request(ForDecompose, 2)], [Sent1(Learning), Expired(At(1, Learning, Running))])

  lemma LateAfter3()
    ensures AllAllowed(1, LATE[..3]) && Replay(1, LATE[..3]) == LATE_3
  {
    hide Replay, AllAllowed, Step;
    LateTick();
    AfterBegun(LATE);
    Extend(LATE, 2, ASKED);
  }

  lemma LateTick()
    ensures Step(ASKED, 1, Tick(400_000_000_000)) == LATE_3
  {
    TickShape(ASKED, 1, 400_000_000_000);
    hide Step;
  }

  /** The newest row, timed out and thus closed for good, runs again after a decomposition request was
      answered on the recovery event; the rows are in order all the while. */
  lemma LateAnswerReopens()
    ensures AllAllowed(1, LATE[..3]) && LATE[3].Recover?
    ensures Feasible(Replay(1, LATE[..3]), 1, LATE[3]) && !Tolerable(Replay(1, LATE[..3]), 1, LATE[3])
    ensures var before, after := Replay(1, LATE[..3]).rows, Replay(1, LATE).rows;
            && |before| == |after| == 1 && Final(before, 0) && before[0].status == TimedOut
            && after[0].status == Running && RowsOk(after)
  {
    LateAfter3();
    Extend(LATE, 3, LATE_3);
    assert LATE[..4] == LATE;
    hide Replay, AllAllowed;
    assert Decide(LATE_3.rows, FindTask(LATE_3.tasks, 2), Retry) == Again(LATE_3.rows[0]);
  }

  // ── A deletion that names the empty task id ──

  const EMPTY_ID: seq<Event> := BEGUN + [
    Event.Split(3, 2, true, 1, 4),
    Ask(4, 5),
    Event.Split(5, 4, true, 1, 6),
    Result(Report(Learning, Completed), true, 7, 0),
    Ask(2, 8),
    Event.Split(8, 2, true, 1, 9),
    Result(Report(Building, Completed), true, 10, 0),
    Delete(0),
    Delete(2),
    Result(Report(PreLoad, Failed), true, 11, 0),
    Recover(Advice(11, 1, 6, Retry, "", 0), Context(true, Some(EMPTY_ID_12.tasks[0]), EMPTY_ID_12.rows), 12, 0)
  ]

  const EMPTY_ID_3: View := View([At(1, Learning, Running)],
    [Task(2, 1, 0, Decomposed, Some(Learning)), Task(4, 1, 2, Pending, None)],
                      map[], [Sent1(Learning)])

  lemma EmptyAfter3()
    ensures AllAllowed(1, EMPTY_ID[..3]) && Replay(1, EMPTY_ID[..3]) == EMPTY_ID_3
  {
    hide Replay, AllAllowed;
    AfterBegun(EMPTY_ID);
    Extend(EMPTY_ID, 2, ASKED);
  }

  const EMPTY_ID_4: View := View([At(1, Learning, Running)],
    [Task(2, 1, 0, Decomposed, Some(Learning)), Task(4, 1, 2, Pending, None)],
    map[5 := Request(ForDecompose, 4)], [Sent1(Learning)])

  lemma EmptyAfter4()
    ensures AllAllowed(1, EMPTY_ID[..4]) && Replay(1, EMPTY_ID[..4]) == EMPTY_ID_4
  {
    hide Replay, AllAllowed;
    EmptyAfter3();
    Extend(EMPTY_ID, 3, EMPTY_ID_3);
  }

  const EMPTY_ID_5: View := View([At(1, Learning, Running)],
    [Task(2, 1, 0, Decomposed, Some(Learning)), Task(4, 1, 2, Decomposed, None),
     Task(6, 1, 4, Pending, None)],
    map[], [Sent1(Learning)])

  lemma EmptyAfter5()
    ensures AllAllowed(1, EMPTY_ID[..5]) && Replay(1, EMPTY_ID[..5]) == EMPTY_ID_5
  {
    hide Replay, AllAllowed;
    EmptyAfter4();
    Extend(EMPTY_ID, 4, EMPTY_ID_4);
  }

  const EMPTY_ID_6: View := View([At(1, Learning, Completed), At(7, Building, Running)],
    [Task(2, 1, 0, Decomposed, Some(Learning)), Task(4, 1, 2, Decomposed, None),
     Task(6, 1, 4, Pending, Some(Building))],
                      map[],
    [Sent1(Learning), Done1(Learning), Sent1(Building)])

  lemma EmptyAfter6()
    ensures AllAllowed(1, EMPTY_ID[..6]) && Replay(1, EMPTY_ID[..6]) == EMPTY_ID_6
  {
    hide Replay, AllAllowed;
    EmptyAfter5();
    Extend(EMPTY_ID, 5, EMPTY_ID_5);
  }

  const EMPTY_ID_7: View := View([At(1, Learning, Completed), At(7, Building, Running)],
    [Task(2, 1, 0, Decomposed, Some(Learning)), Task(4, 1, 2, Decomposed, None),
     Task(6, 1, 4, Pending, Some(Building))],
    map[8 := Request(ForDecompose, 2)], [Sent1(Learning), Done1(Learning), Sent1(Building)])

  lemma EmptyAfter7()
    ensures AllAllowed(1, EMPTY_ID[..7]) && Replay(1, EMPTY_ID[..7]) == EMPTY_ID_7
  {
    hide Replay, AllAllowed;
    EmptyAfter6();
    Extend(EMPTY_ID, 6, EMPTY_ID_6);
  }

  const EMPTY_ID_8: View := View([At(1, Learning, Completed), At(7, Building, Running)],
    [Task(2, 1, 0, Decomposed, Some(Learning)), Task(4, 1, 2, Decomposed, None),
     Task(6, 1, 4, Pending, Some(Building)), Task(9, 1, 2, Pending, None)],
                      map[],
    [Sent1(Learning), Done1(Learning), Sent1(Building)])

  lemma EmptyAfter8()
    ensures AllAllowed(1, EMPTY_ID[..8]) && Replay(1, EMPTY_ID[..8]) == EMPTY_ID_8
  {
    hide Replay, AllAllowed;
    EmptyAfter7();
    Extend(EMPTY_ID, 7, EMPTY_ID_7);
  }

  const EMPTY_ID_9: View := View([At(1, Learning, Completed), At(7, Building, Completed), At(10, PreLoad, Running)],
    [Task(2, 1, 0, Decomposed, Some(Learning)), Task(4, 1, 2, Decomposed, None),
     Task(6, 1, 4, Pending, Some(Building)), Task(9, 1, 2, Pending, Some(PreLoad))],
                      map[],
    [Sent1(Learning), Done1(Learning), Sent1(Building), Done1(Building), Sent1(PreLoad)])

  lemma EmptyAfter9()
    ensures AllAllowed(1, EMPTY_ID[..9]) && Replay(1, EMPTY_ID[..9]) == EMPTY_ID_9
  {
    hide Replay, AllAllowed;
    EmptyAfter8();
    Extend(EMPTY_ID, 8, EMPTY_ID_8);
  }

  const EMPTY_ID_10: View := View([At(1, Learning, Completed), At(7, Building, Completed), At(10, PreLoad, Running)],
    [Task(4, 1, 2, Decomposed, None), Task(6, 1, 4, Pending, Some(Building)), Task(9, 1, 2, Pending, Some(PreLoad))],
                      map[],
    [Sent1(Learning), Done1(Learning), Sent1(Building), Done1(Building), Sent1(PreLoad)])

  lemma EmptyAfter10()
    ensures Replay(1, EMPTY_ID[..10]) == EMPTY_ID_10
  {
    hide Replay, AllAllowed;
    EmptyAfter9();
    Extend(EMPTY_ID, 9, EMPTY_ID_9);
    WithoutFirst(EMPTY_ID_9.tasks[0], EMPTY_ID_9.tasks[1], EMPTY_ID_9.tasks[2], EMPTY_ID_9.tasks[3]);
    hide Without;
  }

  const EMPTY_ID_11: View := View([At(1, Learning, Completed), At(7, Building, Completed), At(10, PreLoad, Running)],
    [Task(6, 1, 4, Pending, Some(Building))], map[],
    [Sent1(Learning), Done1(Learning), Sent1(Building), Done1(Building), Sent1(PreLoad)])

  lemma EmptyAfter11()
    ensures Replay(1, EMPTY_ID[..11]) == EMPTY_ID_11
  {
    hide Replay, AllAllowed;
    EmptyAfter10();
    Extend(EMPTY_ID, 10, EMPTY_ID_10);
    WithoutOuter(EMPTY_ID_10.tasks[0], EMPTY_ID_10.tasks[1], EMPTY_ID_10.tasks[2], 2);
    hide Without;
  }

  const EMPTY_ID_12: View := View([At(1, Learning, Completed), At(7, Building, Completed), At(10, PreLoad, Failed)],
    [Task(6, 1, 4, Recovering, Some(Building))], map[11 := Request(ForRecovery, 6)],
    [Sent1(Learning), Done1(Learning), Sent1(Building), Done1(Building), Sent1(PreLoad)] +
    [Accepted(Report(PreLoad, Failed)), Asked(11)])

  lemma EmptyAfter12()
    ensures Replay(1, EMPTY_ID[..12]) == EMPTY_ID_12
  {
    hide Replay, AllAllowed;
    EmptyAfter11();
    Extend(EMPTY_ID, 11, EMPTY_ID_11);
  }

  const EMPTY_ID_13: View := View(
    [At(1, Learning, Completed), At(7, Building, Completed).(status := Running, retryCount := 1),
     At(10, PreLoad, Failed)],
    [Task(6, 1, 4, InProgress, Some(Building))], map[],
    [Sent1(Learning), Done1(Learning), Sent1(Building), Done1(Building), Sent1(PreLoad)]
    + [Accepted(Report(PreLoad, Failed)), Asked(11), Next(Building, "", "", 1, 0)])

  lemma EmptyAfter13()
    ensures Replay(1, EMPTY_ID[..13]) == EMPTY_ID_13
  {
    hide Replay, AllAllowed;
    EmptyAfter12();
    Extend(EMPTY_ID, 12, EMPTY_ID_12);
  }

  /** With only an empty-id deletion out of line, a completed row that is not the newest runs again. */
  lemma EmptyIdReopens()
    ensures AllAllowed(1, EMPTY_ID[..9]) && EMPTY_ID[9] == Delete(0)
    ensures forall k :: 9 < k < |EMPTY_ID| ==> Allowed(Replay(1, EMPTY_ID[..k]), 1, EMPTY_ID[k])
    ensures var before, after := Replay(1, EMPTY_ID[..12]).rows, Replay(1, EMPTY_ID).rows;
            |before| == |after| == 3 && before[1].status == Completed && after[1].status == Running
  {
    hide Replay, AllAllowed;
    EmptyAfter9();
    EmptyAfter10();
    EmptyAfter11();
    EmptyAfter12();
    EmptyAfter13();
    assert EMPTY_ID[..13] == EMPTY_ID;
    LateEventsAllowed();
  }

  lemma LateEventsAllowed()
    ensures Allowed(EMPTY_ID_10, 1, EMPTY_ID[10]) && Allowed(EMPTY_ID_11, 1, EMPTY_ID[11])
    ensures Allowed(EMPTY_ID_12, 1, EMPTY_ID[12])
  {
  }
}
