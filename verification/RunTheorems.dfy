/** What the invariant means: the results about every reachable state and every step. */
module RunTheorems {
  import opened Basics
  import opened Stages
  import opened RunMachine
  import opened RunInvariants

  // ── How the rows of a run can move in one step ─────────────────────────────────────────────

  datatype Move = Still | Wipe | Start | Shut(status: RowStatus) | Pass | Redo | Hop

  /** `b` is `a` after one move. Shut closes (or refreshes) the running newest row, Pass also
      starts the next stage, Redo reopens a failed newest row, Hop skips a failed evaluation. */
  ghost predicate Moves(a: seq<Row>, b: seq<Row>, m: Move) {
    match m
    case Still => b == a
    case Wipe => b == []
    case Start => a == [] && |b| == 1 && b[0].status == Running && b[0].stage == Learning && b[0].retryCount == 0
    case Shut(s) =>
      && a != [] && Last(a).status == Running && |b| == |a| && Front(b) == Front(a)
      && Last(b) == Last(a).(status := s, outcome := Last(b).outcome, updatedAt := Last(b).updatedAt)
    case Pass =>
      && a != [] && Last(a).status == Running && |b| == |a| + 1 && Front(Front(b)) == Front(a)
      && Last(Front(b)) == Last(a).(status := Completed, outcome := Last(Front(b)).outcome,
                                    updatedAt := Last(Front(b)).updatedAt)
      && Last(b).status == Running && Last(b).retryCount == 0 && NextStage(Last(a).stage) == Some(Last(b).stage)
    case Redo =>
      && a != [] && Last(a).status == Failed && Last(a).retryCount < MAX_STAGE_RETRIES
      && |b| == |a| && Front(b) == Front(a)
      && Last(b) == Last(a).(status := Running, retryCount := Last(a).retryCount + 1, updatedAt := Last(b).updatedAt)
    case Hop =>
      && |b| == |a| + 1 && Front(b) == a
      && Last(b).stage == SkillManage && Last(b).status == Running && Last(b).retryCount == 0
      && (a == [] || (Last(a).status == Failed && Last(a).stage == Evaluation))
  }

  /** The number of dispatches a move makes. */
  function Dispatches(m: Move): nat {
    if m.Start? || m.Pass? || m.Redo? || m.Hop? then 1 else 0
  }

  function ResultMove(v: View, m: StageResult): Move {
    if FindRunning(v.rows, m.stage).None? then Still
    else if m.status == Completed && NextStage(m.stage).Some? then Pass
    else Shut(m.status)
  }

  function RecoveryMove(a: Advice, c: Context): Move {
    if !c.pending then Still
    else
      match Decide(c.rows, c.task, a.action)
      case Again(_) => Redo
      case Onward(_) => Hop
      case _ => Still
  }

  function MoveOf(v: View, e: Event): Move {
    match e
    case Begin(_, _, _) => Start
    case Result(m, _, _, _) => ResultMove(v, m)
    case Recover(a, c, _, _) => RecoveryMove(a, c)
    case Tick(now) => if v.rows != [] && Stale(Last(v.rows), now) then Shut(TimedOut) else Still
    case Delete(root) => if FindTask(v.tasks, root).Some? then Wipe else Still
    case _ => Still
  }

  lemma ResultMoves(v: View, run: nat, m: StageResult, delivered: bool, newId: nat, now: nat)
    requires RowsOk(v.rows)
    ensures var z := OnResult(v, run, m, delivered, newId, now);
            && Moves(v.rows, z.rows, ResultMove(v, m))
            && Total(z.trail, Sent) == Total(v.trail, Sent) + Dispatches(ResultMove(v, m))
            && (z.pend == v.pend ||
                (v.rows != [] && Last(v.rows).status == Running && ResultMove(v, m) == Shut(Failed)))
  {
    if FindRunning(v.rows, m.stage).Some? {
      ResultCloses(v, m, now);
      var w, z := Recorded(v, m, now), OnResult(v, run, m, delivered, newId, now);
      assert w.rows == Front(v.rows) + [Last(w.rows)];
      TrailSums(v.trail, Accepted(m));
      TrailSums(w.trail, Asked(newId));
      if m.status == Completed && NextStage(m.stage).Some? {
        assert z.rows == w.rows + [Last(z.rows)] && Front(z.rows) == w.rows;
        TrailSums(w.trail, Last(z.trail));
      }
    }
  }

  lemma RetryMoves(v: View, u: View, run: nat, a: Advice, t: Option<Task>, now: nat)
    requires Inv(v) && Answers(v, u, a, t) && a.run == run && Decide(v.rows, t, Retry).Again?
    ensures var z := Enact(u, run, a, Decide(v.rows, t, Retry), t, 0, now);
            Moves(v.rows, z.rows, Redo) && Total(z.trail, Sent) == Total(v.trail, Sent) + 1 && z.pend == u.pend
  {
    RetryPicksNewest(v, a.request, t);
    PatchLast(v.rows, Reopen, now);
    var z := Enact(u, run, a, Decide(v.rows, t, Retry), t, 0, now);
    hide Inv;
    TrailSums(v.trail, Last(z.trail));
  }

  lemma SkipMoves(v: View, u: View, run: nat, a: Advice, newId: nat, now: nat)
    requires Inv(v) && Answers(v, u, a, FindTask(v.tasks, a.task)) && StageById(v.tasks, a.task) == Some(Evaluation)
    ensures var z := Skipped(u, run, a, newId, now);
            Moves(v.rows, z.rows, Hop) && Total(z.trail, Sent) == Total(v.trail, Sent) + 1 && z.pend == u.pend
  {
    var z := Skipped(u, run, a, newId, now);
    var k := Position(v.tasks, a.task);
    assert v.rows != [] ==> Last(v.rows).stage == Evaluation && Last(v.rows).status == Failed;
    hide Inv;
    assert Front(z.rows) == v.rows;
    TrailSums(v.trail, Last(z.trail));
  }

  lemma RecoveryMoves(v: View, run: nat, a: Advice, c: Context, newId: nat, now: nat)
    requires Inv(v) && Honest(v, run, a, c)
    ensures var z := OnRecovery(v, run, a, c, newId, now);
            && Moves(v.rows, z.rows, RecoveryMove(a, c))
            && Total(z.trail, Sent) == Total(v.trail, Sent) + Dispatches(RecoveryMove(a, c))
            && z.pend == if c.pending then v.pend - {a.request} else v.pend
  {
    hide Inv;
    var z := OnRecovery(v, run, a, c, newId, now);
    if c.pending {
      var u, t := v.(pend := v.pend - {a.request}), FindTask(v.tasks, a.task);
      match Decide(v.rows, t, a.action) {
        case Again(row) => RetryMoves(v, u, run, a, t, now);
        case Onward(next) => SkipMoves(v, u, run, a, newId, now);
        case _ => assert z.rows == v.rows && z.trail == v.trail;
      }
    }
  }

  lemma BeginMoves(v: View, run: nat, input: string, newId: nat, now: nat)
    requires v.rows == []
    ensures var z := Began(v, run, input, newId, now);
            Moves(v.rows, z.rows, Start) && Total(z.trail, Sent) == Total(v.trail, Sent) + 1
  {
    TrailSums(v.trail, Next(Learning, "", input, 0, now));
  }

  lemma DeleteMoves(v: View, run: nat, root: nat)
    requires run != 0
    ensures var z := OnDelete(v, run, root);
            Moves(v.rows, z.rows, MoveOf(v, Delete(root))) && Total(z.trail, Sent) == Total(v.trail, Sent)
  {
    TrailSums(v.trail, Wiped(v.rows));
  }

  /** Every step moves the rows in one of these ways and dispatches exactly when it says so. */
  lemma StepMoves(v: View, run: nat, e: Event)
    requires Inv(v) && run != 0 && Allowed(v, run, e)
    ensures Moves(v.rows, Step(v, run, e).rows, MoveOf(v, e))
    ensures Total(Step(v, run, e).trail, Sent) == Total(v.trail, Sent) + Dispatches(MoveOf(v, e))
  {
    hide OnResult, OnRecovery, Expire;
    assert RowsOk(v.rows);
    hide Inv, RowsOk, Total, Moves, ResultMove, RecoveryMove, FreshFor, NotBefore, Began, OnDelete;
    match e {
      case Begin(input, newId, now) => BeginMoves(v, run, input, newId, now);
      case Result(m, delivered, newId, now) => ResultMoves(v, run, m, delivered, newId, now);
      case Recover(a, c, newId, now) => RecoveryMoves(v, run, a, c, newId, now);
      case Tick(now) => TickMoves(v, run, now);
      case Delete(root) => DeleteMoves(v, run, root);
      case _ =>
        var z := Step(v, run, e);
        assert z.rows == v.rows && z.trail == v.trail;
        StillMoves(v.rows);
    }
  }

  lemma StillMoves(rows: seq<Row>)
    ensures Moves(rows, rows, Still)
  {
  }

  lemma TickMoves(v: View, run: nat, now: nat)
    requires RowsOk(v.rows)
    ensures var z := Step(v, run, Tick(now));
            && Moves(v.rows, z.rows, MoveOf(v, Tick(now))) && Total(z.trail, Sent) == Total(v.trail, Sent)
            && z.pend == v.pend
  {
    TickShape(v, run, now);
    hide Step;
    if v.rows != [] && Stale(Last(v.rows), now) {
      PatchLast(v.rows, Close(TimedOut, Lapse(Last(v.rows))), now);
      TrailSums(v.trail, Expired(Last(v.rows)));
      assert Front(ExpiredRow(v, Last(v.rows), now).rows) == Front(v.rows);
    }
  }

  // ── Row discipline ─────────────────────────────────────────────────────────────────────────

  lemma {:induction false} RanksBound(rows: seq<Row>)
    requires RowsOk(rows)
    ensures rows != [] ==> |rows| <= Rank(Last(rows).stage) + 1
  {
    if |rows| > 1 {
      RanksBound(Front(rows));
    }
  }

  /** In every reachable state: at most five rows, one a stage, in pipeline order; only the newest
      may be running; at most one recovery is pending and then nothing runs; three retries at most. */
  lemma RowDiscipline(run: nat, es: seq<Event>)
    requires run != 0 && AllAllowed(run, es)
    ensures var v := Replay(run, es);
            && |v.rows| <= 5
            && (forall i, j :: 0 <= i < j < |v.rows| ==> Rank(v.rows[i].stage) < Rank(v.rows[j].stage))
            && (forall i :: 0 <= i < |v.rows| && v.rows[i].status == Running ==>
                  i == |v.rows| - 1 && Recoveries(v.pend) == {})
            && (forall q, r :: q in Recoveries(v.pend) && r in Recoveries(v.pend) ==> q == r)
            && (forall i :: 0 <= i < |v.rows| ==> v.rows[i].retryCount <= 3)
  {
    hide Step, Replay;
    Reachable(run, es);
    RanksBound(Replay(run, es).rows);
  }

  // ── Rows never reopen unless failed and newest ─────────────────────────────────────────────

  /** A row that is closed for good: anything but the running row and a failed newest row. */
  ghost predicate Final(rows: seq<Row>, i: nat) {
    i < |rows| && rows[i].status != Running && (rows[i].status == Failed ==> i < |rows| - 1)
  }

  lemma FinalStays(a: seq<Row>, b: seq<Row>, m: Move, i: nat)
    requires RowsOk(a) && Moves(a, b, m) && Final(a, i)
    ensures b == [] || (Final(b, i) && b[i] == a[i])
  {
    if m.Pass? { assert b[i] == Front(b)[i] && Front(b)[i] == Front(Front(b))[i]; }
    else if b != [] && i < |a| - 1 { assert b[i] == Front(b)[i] && a[i] == Front(a)[i]; }
    else if m.Hop? { assert b[i] == Front(b)[i]; }
  }

  /** The history is only added to. */
  ghost predicate Longer(s: seq<Effect>, t: seq<Effect>) {
    |s| <= |t| && (NoWipe(t) ==> NoWipe(s))
  }

  lemma ResultTrail(v: View, run: nat, m: StageResult, delivered: bool, newId: nat, now: nat)
    ensures Longer(v.trail, OnResult(v, run, m, delivered, newId, now).trail)
  {
    if FindRunning(v.rows, m.stage).Some? {
      var w, z := Recorded(v, m, now), OnResult(v, run, m, delivered, newId, now);
      TrailSums(v.trail, Accepted(m));
      TrailSums(w.trail, Asked(newId));
      if m.status == Completed && NextStage(m.stage).Some? { TrailSums(w.trail, Last(z.trail)); }
    }
  }

  lemma RecoveryTrail(v: View, run: nat, a: Advice, c: Context, newId: nat, now: nat)
    ensures Longer(v.trail, OnRecovery(v, run, a, c, newId, now).trail)
  {
    var z := OnRecovery(v, run, a, c, newId, now);
    if |z.trail| == |v.trail| + 1 {
      TrailSums(v.trail, Last(z.trail));
      assert z.trail == v.trail + [Last(z.trail)];
    }
  }

  lemma TrailGrows(v: View, run: nat, e: Event)
    ensures Longer(v.trail, Step(v, run, e).trail)
  {
    hide OnResult, OnRecovery, Expire;
    match e {
      case Begin(input, _, now) => TrailSums(v.trail, Next(Learning, "", input, 0, now));
      case Result(m, delivered, newId, now) => ResultTrail(v, run, m, delivered, newId, now);
      case Recover(a, c, newId, now) => RecoveryTrail(v, run, a, c, newId, now);
      case Tick(now) => ExpireTrail(v, StaleRows(v.rows, now), now);
      case Delete(root) => TrailSums(v.trail, Wiped(v.rows));
      case _ =>
    }
  }

  lemma {:induction false} ExpireTrail(v: View, stale: seq<Row>, now: nat)
    ensures Longer(v.trail, Expire(v, stale, now).trail)
  {
    if stale != [] {
      ExpireTrail(v, Front(stale), now);
      TrailSums(Expire(v, Front(stale), now).trail, Expired(Last(stale)));
    }
  }

  /** Completed, timed-out and superseded rows never change again, whatever happens, until the
      rows of the run are deleted. */
  lemma {:induction false} FinalForever(run: nat, es: seq<Event>, more: seq<Event>, i: nat)
    requires run != 0 && AllAllowed(run, es + more)
    requires Final(Replay(run, es).rows, i) && NoWipe(Replay(run, es + more).trail)
    ensures Final(Replay(run, es + more).rows, i) && Replay(run, es + more).rows[i] == Replay(run, es).rows[i]
  {
    hide Step, Inv, Allowed, Final;
    if more == [] {
      hide Replay, AllAllowed, NoWipe;
      assert es + more == es;
    } else {
      assert Front(es + more) == es + Front(more) && Last(es + more) == Last(more);
      var v, e := Replay(run, es + Front(more)), Last(more);
      assert Replay(run, es + more) == Step(v, run, e) && AllAllowed(run, es + Front(more)) && Allowed(v, run, e);
      hide Replay, AllAllowed, NoWipe;
      Reachable(run, es + Front(more));
      TrailGrows(v, run, e);
      FinalForever(run, es, Front(more), i);
      FinalStep(v, run, e, i);
    }
  }

  lemma FinalStep(v: View, run: nat, e: Event, i: nat)
    requires Inv(v) && run != 0 && Allowed(v, run, e) && Final(v.rows, i) && NoWipe(Step(v, run, e).trail)
    ensures Final(Step(v, run, e).rows, i) && Step(v, run, e).rows[i] == v.rows[i]
  {
    assert RowsOk(v.rows) && v.rows != [];
    hide Inv, Step, Allowed, MoveOf, RowsOk, Final, Moves, NoWipe;
    StepMoves(v, run, e);
    OnlyDeletionEmpties(v, run, e);
    FinalStays(v.rows, Step(v, run, e).rows, MoveOf(v, e), i);
  }

  lemma OnlyDeletionEmpties(v: View, run: nat, e: Event)
    requires Inv(v) && run != 0 && Allowed(v, run, e) && v.rows != [] && NoWipe(Step(v, run, e).trail)
    ensures Step(v, run, e).rows != []
  {
    hide OnResult, OnRecovery, Expire, Began, Divided, Inv;
    StepMoves(v, run, e);
    if MoveOf(v, e).Wipe? {
      TrailSums(v.trail, Wiped(v.rows));
    }
  }

  // ── Dispatch accounts ──────────────────────────────────────────────────────────────────────

  lemma {:induction false} NothingLost(trail: seq<Effect>)
    requires NoWipe(trail)
    ensures Total(trail, Lost) == 0 && Total(trail, LostOpen) == 0
  {
    if trail != [] { NothingLost(Front(trail)); }
  }

  /** While no row has been deleted, dispatches = rows + retries = accepted results + timeouts +
      open rows; and on any run at all there are at most 20 dispatches. */
  lemma DispatchAccounts(run: nat, es: seq<Event>)
    requires run != 0 && AllAllowed(run, es)
    ensures var v := Replay(run, es);
            && Total(v.trail, Sent) <= 20
            && (NoWipe(v.trail) ==>
              && Total(v.trail, Sent) == Weight(v.rows)
              && Total(v.trail, Sent) == Total(v.trail, Answered) + Total(v.trail, Expiries) + Open(v.rows))
            && Total(v.trail, Sent) == Weight(v.rows) + Total(v.trail, Lost)
            && Total(v.trail, Sent) ==
               Total(v.trail, Answered) + Total(v.trail, Expiries) + Open(v.rows) + Total(v.trail, LostOpen)
  {
    hide Step, Replay;
    Reachable(run, es);
    if NoWipe(Replay(run, es).trail) { NothingLost(Replay(run, es).trail); }
  }

  // ── Termination ────────────────────────────────────────────────────────────────────────────

  /** 2 while a row runs, 1 while a recovery is pending, else 0. */
  ghost function Phase(v: View): nat {
    if v.rows != [] && Last(v.rows).status == Running then 2 else if Recoveries(v.pend) != {} then 1 else 0
  }

  ghost predicate CanHop(v: View) {
    exists q :: q in Recoveries(v.pend) && StageById(v.tasks, v.pend[q].task) == Some(Evaluation)
  }

  /** Stages left, then retries left, then the phase, as one number. */
  ghost function Energy(v: View): nat
    requires RowsOk(v.rows)
  {
    if v.rows != [] then
      12 * (4 - Rank(Last(v.rows).stage)) + 3 * (MAX_STAGE_RETRIES - Last(v.rows).retryCount) + Phase(v)
    else if CanHop(v) then 12
    else Phase(v)
  }

  /** An accepted result that does not leave the row running, a consumed response or a timeout. */
  ghost predicate Progress(v: View, e: Event) {
    match e
    case Result(m, _, _, _) => FindRunning(v.rows, m.stage).Some? && m.status != Running
    case Recover(_, c, _, _) => c.pending
    case Tick(now) => v.rows != [] && Stale(Last(v.rows), now)
    case _ => false
  }

  /** How much a move spends when rows remain. */
  lemma MoveCosts(v: View, z: View, m: Move)
    requires RowsOk(v.rows) && RowsOk(z.rows) && Moves(v.rows, z.rows, m) && v.rows != [] && z.rows != []
    requires Recoveries(v.pend) != {} ==> Last(v.rows).status == Failed
    requires m.Redo? || m.Hop? ==> Recoveries(v.pend) != {}
    requires m.Shut? && m.status == Running ==> z.pend == v.pend
    requires m.Still? ==> Recoveries(z.pend) <= Recoveries(v.pend)
    ensures Energy(z) <= Energy(v)
    ensures (m.Shut? && m.status != Running) || m.Pass? || m.Redo? || m.Hop? ==> Energy(z) < Energy(v)
  {
    assert m.Pass? || m.Hop? ==> Last(Front(z.rows)).stage == Last(v.rows).stage;
  }

  lemma ResultCosts(v: View, run: nat, m: StageResult, delivered: bool, newId: nat, now: nat)
    requires Inv(v) && FreshFor(v, newId) && NotBefore(v, now)
    ensures var z := OnResult(v, run, m, delivered, newId, now);
            && RowsOk(z.rows) && Energy(z) <= Energy(v)
            && (FindRunning(v.rows, m.stage).Some? && m.status != Running ==> Energy(z) < Energy(v))
  {
    if FindRunning(v.rows, m.stage).Some? {
      ResultKeeps(v, run, m, delivered, newId, now);
      ResultMoves(v, run, m, delivered, newId, now);
      var z := OnResult(v, run, m, delivered, newId, now);
      assert v.rows != [] && Recoveries(v.pend) == {} && RowsOk(v.rows) && RowsOk(z.rows);
      hide Inv, RowsOk, OnResult;
      MoveCosts(v, z, ResultMove(v, m));
    }
  }

  lemma SpendRequest(v: View, z: View, m: Move)
    requires RowsOk(v.rows) && RowsOk(z.rows) && Moves(v.rows, z.rows, m) && m in {Still, Redo, Hop}
    requires Recoveries(v.pend) != {} && Recoveries(z.pend) == {}
    requires v.rows != [] ==> Last(v.rows).status == Failed
    requires m.Hop? && v.rows == [] ==> CanHop(v)
    ensures Energy(z) < Energy(v)
  {
    if v.rows != [] {
      assert z.rows != [];
      MoveCosts(v, z, m);
    }
  }

  lemma RecoveryCosts(v: View, run: nat, a: Advice, c: Context, newId: nat, now: nat)
    requires Inv(v) && FreshFor(v, newId) && NotBefore(v, now) && Honest(v, run, a, c)
    ensures var z := OnRecovery(v, run, a, c, newId, now);
            && RowsOk(z.rows) && Energy(z) <= Energy(v) && (c.pending ==> Energy(z) < Energy(v))
  {
    if c.pending {
      var z := OnRecovery(v, run, a, c, newId, now);
      RecoverKeeps(v, run, a, c, newId, now);
      RecoveryMoves(v, run, a, c, newId, now);
      HopNeedsRequest(v, a, c);
      hide OnRecovery, RecoveryMove, FreshFor, NotBefore;
      assert a.request in Recoveries(v.pend) && RowsOk(v.rows) && RowsOk(z.rows) && RequestsOk(v);
      hide Inv, RowsOk, Honest;
      RequestsSpent(v, z, a.request);
      assert v.rows != [] ==> Last(v.rows).status == Failed;
      hide Moves, CanHop, Energy, Recoveries, RequestsOk;
      SpendRequest(v, z, RecoveryMove(a, c));
    }
  }

  lemma HopNeedsRequest(v: View, a: Advice, c: Context)
    requires a.request in v.pend && v.pend[a.request] == Request(ForRecovery, a.task) && c == OwnContext(v, a)
    ensures RecoveryMove(a, c) in {Still, Redo, Hop}
    ensures RecoveryMove(a, c).Hop? ==> CanHop(v)
  {
    assert a.request in Recoveries(v.pend);
    hide FindTask, RetryCountOf, NewestOf;
  }

  lemma RequestsSpent(v: View, z: View, q: nat)
    requires RequestsOk(v) && q in Recoveries(v.pend) && z.pend == v.pend - {q}
    ensures Recoveries(z.pend) == {}
  {
    assert forall r :: r in Recoveries(z.pend) ==> r in Recoveries(v.pend) && r != q;
  }

  lemma DeleteCosts(v: View, run: nat, root: nat)
    requires Inv(v) && run != 0 && root != 0
    ensures var z := OnDelete(v, run, root); RowsOk(z.rows) && Energy(z) <= Energy(v)
  {
    var z := OnDelete(v, run, root);
    forall q | q in Recoveries(z.pend) && StageById(z.tasks, z.pend[q].task) == Some(Evaluation)
      ensures CanHop(v) && (v.rows != [] ==> Last(v.rows).stage == Evaluation)
    {
      WithoutFind(v.tasks, root, v.pend[q].task);
      var k := Position(v.tasks, v.pend[q].task);
    }
  }

  lemma ForgetCosts(v: View, z: View)
    requires RowsOk(v.rows) && z.rows == v.rows && Recoveries(z.pend) <= Recoveries(v.pend)
    requires forall q :: q in Recoveries(z.pend) ==>
      StageById(z.tasks, z.pend[q].task) in {None, StageById(v.tasks, v.pend[q].task)}
    ensures Energy(z) <= Energy(v)
  {
  }

  lemma SplitCosts(v: View, run: nat, request: nat, task: nat, agreed: bool, count: nat, newId: nat)
    requires Inv(v) && FreshFor(v, newId)
    ensures Energy(Step(v, run, Event.Split(request, task, agreed, count, newId))) <= Energy(v)
  {
    var z := Step(v, run, Event.Split(request, task, agreed, count, newId));
    var t := FindTask(v.tasks, task);
    if agreed && count > 0 && t.Some? && t.value.runId == run {
      DivideShape(v.tasks, run, t.value, count, newId);
    }
    assert Grown(v.tasks, z.tasks);
    forall q | q in Recoveries(z.pend)
      ensures StageById(z.tasks, z.pend[q].task) in {None, StageById(v.tasks, v.pend[q].task)}
    {
      GrownFind(v.tasks, z.tasks, z.pend[q].task);
    }
    ForgetCosts(v, z);
  }

  /** No event but the start of a run adds energy, and progress always spends some. */
  lemma ProgressSpends(v: View, run: nat, e: Event)
    requires Inv(v) && run != 0 && Allowed(v, run, e) && !e.Begin?
    ensures RowsOk(Step(v, run, e).rows) && Energy(Step(v, run, e)) <= Energy(v)
    ensures Progress(v, e) ==> Energy(Step(v, run, e)) < Energy(v)
  {
    assert RowsOk(v.rows);
    hide OnResult, OnRecovery, Expire, OnDelete, Inv, RowsOk, FreshFor, NotBefore;
    match e {
      case Result(m, delivered, newId, now) => ResultCosts(v, run, m, delivered, newId, now);
      case Recover(a, c, newId, now) => RecoveryCosts(v, run, a, c, newId, now);
      case Tick(now) => TickCosts(v, run, now);
      case Delete(root) => DeleteCosts(v, run, root);
      case Split(request, task, agreed, count, newId) => SplitCosts(v, run, request, task, agreed, count, newId);
      case Ask(task, newId) => AskCosts(v, task, newId);
      case Restart => ForgetCosts(v, Step(v, run, e));
    }
  }

  lemma AskCosts(v: View, task: nat, newId: nat)
    requires RowsOk(v.rows) && FreshFor(v, newId)
    ensures Energy(v.(pend := v.pend[newId := Request(ForDecompose, task)])) <= Energy(v)
  {
    assert newId !in v.pend;
    ForgetCosts(v, v.(pend := v.pend[newId := Request(ForDecompose, task)]));
  }

  lemma TickCosts(v: View, run: nat, now: nat)
    requires Inv(v) && NotBefore(v, now)
    ensures var z := Step(v, run, Tick(now));
            RowsOk(z.rows) && Energy(z) <= Energy(v) && (Progress(v, Tick(now)) ==> Energy(z) < Energy(v))
  {
    TickKeeps(v, run, now);
    TickMoves(v, run, now);
    TickShape(v, run, now);
    var z := Step(v, run, Tick(now));
    assert RowsOk(v.rows) && RowsOk(z.rows);
    assert Recoveries(v.pend) != {} && v.rows != [] ==> Last(v.rows).status == Failed;
    hide Inv, RowsOk, Step;
    if Progress(v, Tick(now)) { MoveCosts(v, z, MoveOf(v, Tick(now))); } else { ForgetSame(v, z); }
  }

  lemma ForgetSame(v: View, z: View)
    requires RowsOk(v.rows) && z.rows == v.rows && z.pend == v.pend && z.tasks == v.tasks
    ensures Energy(z) == Energy(v)
  {
  }

  ghost function ProgressCount(run: nat, es: seq<Event>): nat {
    if es == [] then 0
    else ProgressCount(run, Front(es)) + if Progress(Replay(run, Front(es)), Last(es)) then 1 else 0
  }

  /** On any history at all a run sees at most 59 accepted closing results, consumed recovery
      responses and timeouts together. */
  lemma {:induction false} ProgressBounded(run: nat, es: seq<Event>)
    requires run != 0 && AllAllowed(run, es)
    ensures RowsOk(Replay(run, es).rows)
    ensures ProgressCount(run, es) + Energy(Replay(run, es)) <= 59
    ensures Replay(run, es).trail == [] ==> ProgressCount(run, es) == 0 && Energy(Replay(run, es)) == 0
  {
    Reachable(run, es);
    if es != [] {
      var v, e := Replay(run, Front(es)), Last(es);
      Reachable(run, Front(es));
      ProgressBounded(run, Front(es));
      if e.Begin? {
        assert Replay(run, es).trail != [];
      } else {
        hide Step, Progress, Inv, RowsOk, Energy;
        ProgressSpends(v, run, e);
        TrailGrows(v, run, e);
      }
    }
  }

  // ── A finished run stays finished ──────────────────────────────────────────────────────────

  /** Begun, nothing running, no recovery pending. */
  ghost predicate Quiet(v: View) {
    v.trail != [] && (v.rows != [] ==> Last(v.rows).status != Running) && Recoveries(v.pend) == {}
  }

  lemma QuietStep(v: View, run: nat, e: Event)
    requires Inv(v) && Quiet(v) && run != 0 && Allowed(v, run, e)
    ensures var z := Step(v, run, e);
            Quiet(z) && (z.rows == v.rows || z.rows == []) && Total(z.trail, Sent) == Total(v.trail, Sent)
  {
    TrailGrows(v, run, e);
    StepMoves(v, run, e);
    assert RowsOk(v.rows);
    hide Inv, Step;
    QuietRequests(v, run, e);
    match e {
      case Result(m, delivered, newId, now) =>
        if FindRunning(v.rows, m.stage).Some? { RunningIsLast(v.rows, m.stage); }
      case Recover(a, c, newId, now) =>
        assert c.pending ==> a.request in Recoveries(v.pend);
      case _ =>
    }
  }

  lemma QuietRequests(v: View, run: nat, e: Event)
    requires Quiet(v) && RowsOk(v.rows) && Allowed(v, run, e)
    ensures Recoveries(Step(v, run, e).pend) == {}
  {
    hide Expire;
    match e {
      case Result(m, delivered, newId, now) =>
        if FindRunning(v.rows, m.stage).Some? { RunningIsLast(v.rows, m.stage); }
      case Recover(a, c, newId, now) =>
        assert c.pending ==> a.request in Recoveries(v.pend);
      case Tick(now) => TickMoves(v, run, now);
      case Ask(task, newId) => assert forall q :: q in v.pend ==> q !in Recoveries(v.pend);
      case Split(_, _, _, _, _) => assert forall q :: q in v.pend ==> q !in Recoveries(v.pend);
      case _ =>
    }
  }

  /** Once nothing runs and nothing is pending, no event dispatches the run or changes a row of
      it again, whatever messages arrive; its rows can only be deleted. */
  lemma {:induction false} QuietForever(run: nat, es: seq<Event>, more: seq<Event>)
    requires run != 0 && AllAllowed(run, es + more) && Quiet(Replay(run, es))
    ensures var v, z := Replay(run, es), Replay(run, es + more);
            Quiet(z) && (z.rows == v.rows || z.rows == []) && Total(z.trail, Sent) == Total(v.trail, Sent)
  {
    if more == [] {
      assert es + more == es;
    } else {
      assert Front(es + more) == es + Front(more);
      QuietForever(run, es, Front(more));
      Reachable(run, es + Front(more));
      hide Inv, Step, Quiet;
      QuietStep(Replay(run, es + Front(more)), run, Last(more));
    }
  }

  // ── Main task and rows ─────────────────────────────────────────────────────────────────────

  /** For a run that holds only its main task and has lost no row, the task tells the story of the
      newest row. */
  lemma MainTaskAgrees(run: nat, es: seq<Event>)
    requires run != 0 && AllAllowed(run, es) && Alone(Replay(run, es))
    ensures var v := Replay(run, es); var t := v.tasks[0];
            v.rows != [] && var row := Last(v.rows);
            && (row.status == Running ==> t.status == InProgress)
            && (t.status == InProgress ==> row.status == Running || Silent(row.status))
            && (Recoveries(v.pend) != {} ==> t.status == Recovering && row.status == Failed)
            && (t.status == Done ==> row.stage == SkillManage && row.status in {Completed, Failed})
            && (t.status == Broken ==> row.status in {Failed, TimedOut} && Recoveries(v.pend) == {})
            && t.status != Pending
  {
    Reachable(run, es);
    hide Replay;
  }

  /** "Newest row running exactly when the task is running" survives an accepted result exactly
      when its status is completed, failed or running: any other status closes the row silently. */
  lemma SilentResultDisagrees(v: View, run: nat, m: StageResult, delivered: bool, newId: nat, now: nat)
    requires Inv(v) && Alone(v) && FreshFor(v, newId) && NotBefore(v, now) && FindRunning(v.rows, m.stage).Some?
    ensures var z := OnResult(v, run, m, delivered, newId, now);
            Alone(z) ==>
              z.rows != [] &&
              ((Last(z.rows).status == Running <==> z.tasks[0].status == InProgress) <==>
               m.status in {Completed, Failed, Running})
  {
    var z := OnResult(v, run, m, delivered, newId, now);
    ResultKeeps(v, run, m, delivered, newId, now);
    ResultMoves(v, run, m, delivered, newId, now);
    assert Last(v.rows).status == Running && v.tasks[0].status == InProgress;
    assert m.status !in {Completed, Failed} ==> z.tasks == v.tasks;
    assert Alone(z) ==>
        && z.rows != [] && Agree(Last(z.rows), z.tasks[0])
        && (Last(z.rows).status == Running ==> z.tasks[0].status == InProgress);
    hide Inv, OnResult, Alone;
  }

  // ── Timeouts ───────────────────────────────────────────────────────────────────────────────

  /** One row of a run timed out, or none did. */
  ghost predicate Expires(v: View, z: View, i: nat, now: nat) {
    && i < |v.rows| == |z.rows| && v.rows[i].status == Running && z.rows[i].status == TimedOut
    && LastSent(v.trail) + 300_000_000_000 < now
    && (v.tasks != [] ==> z.tasks != [] && Last(z.tasks).status == Broken)
    && (NoWipe(v.trail) ==> v.tasks != [])
  }

  lemma ExpiresLast(v: View, now: nat)
    requires Inv(v) && v.rows != [] && Stale(Last(v.rows), now)
    ensures var z := ExpiredRow(v, Last(v.rows), now);
            && |z.rows| == |v.rows| && Front(z.rows) == Front(v.rows) && Last(z.rows).status == TimedOut
            && Expires(v, z, |v.rows| - 1, now)
  {
    PatchLast(v.rows, Close(TimedOut, Lapse(Last(v.rows))), now);
    var z := ExpiredRow(v, Last(v.rows), now);
    assert z.rows == Front(v.rows) + [Last(z.rows)];
    assert NoWipe(v.trail) ==> v.tasks != [];
    assert LastSent(v.trail) <= Last(v.rows).updatedAt;
    hide Inv;
  }

  /** A tick leaves no row open that was touched more than 300 s before, times out only rows last
      dispatched more than 300 s before, and tells the newest task of a run it closes. */
  lemma TickSoundAndComplete(v: View, run: nat, now: nat)
    requires Inv(v)
    ensures var z := Step(v, run, Tick(now));
            && |z.rows| == |v.rows|
            && (forall i :: 0 <= i < |z.rows| && z.rows[i].status == Running ==>
                  now - 300_000_000_000 <= z.rows[i].updatedAt)
            && (forall i :: 0 <= i < |z.rows| && z.rows[i] != v.rows[i] ==> Expires(v, z, i, now))
  {
    assert RowsOk(v.rows);
    TickShape(v, run, now);
    if v.rows != [] && Stale(Last(v.rows), now) {
      ExpiresLast(v, now);
      hide Inv, Step, ExpiredRow, Expires;
      ClosedLastOnly(v.rows, ExpiredRow(v, Last(v.rows), now).rows);
    } else {
      hide Inv, Step, ExpiredRow, Expires;
      NothingStale(v.rows, now);
    }
  }

  lemma ClosedLastOnly(a: seq<Row>, b: seq<Row>)
    requires RowsOk(a) && a != [] && |a| == |b| && Front(a) == Front(b) && Last(b).status != Running
    ensures forall i :: 0 <= i < |b| ==> b[i].status != Running
    ensures forall i :: 0 <= i < |b| && b[i] != a[i] ==> i == |a| - 1
  {
    forall i | 0 <= i < |a| - 1 ensures b[i] == a[i] {
      assert b[i] == Front(b)[i] == Front(a)[i];
    }
  }

  lemma NothingStale(rows: seq<Row>, now: nat)
    requires RowsOk(rows) && (rows != [] ==> !Stale(Last(rows), now))
    ensures forall i :: 0 <= i < |rows| && rows[i].status == Running ==> now - 300_000_000_000 <= rows[i].updatedAt
  {
  }
}
