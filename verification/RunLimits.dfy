/**
 * Where the discipline ends: the exact conditions, for one response, one step and any history, whatever
 * the response answers and whatever runs and tasks it names. `RunHistories` shows that it does end.
 */
module RunLimits {
  import opened Basics
  import opened Stages
  import opened RunMachine
  import opened RunInvariants
  import opened RunTheorems

  // ── Exactly when the discipline is kept ──

  /** Every row that is closed for good stays as it is. */
  ghost predicate Frozen(a: seq<Row>, b: seq<Row>) {
    forall i: nat :: Final(a, i) ==> i < |b| && b[i] == a[i]
  }

  /** Acting on any response keeps the closed rows exactly when a retry picks the newest row while it is
      failed or running. */
  lemma ClosedRowsKeptIff(v: View, u: View, run: nat, a: Advice, t: Option<Task>, newId: nat, now: nat)
    requires RowsOk(v.rows) && u.rows == v.rows && a.run == run
    ensures var verdict := Decide(v.rows, t, a.action);
            Frozen(v.rows, Enact(u, run, a, verdict, t, newId, now).rows) <==>
            (verdict.Again? ==> verdict.row == Last(v.rows) && verdict.row.status in {Failed, Running})
  {
    var verdict := Decide(v.rows, t, a.action);
    var z := Enact(u, run, a, verdict, t, newId, now);
    assert verdict.Again? ==> verdict.row in v.rows && z.rows == PatchRow(v.rows, verdict.row.id, Reopen, now);
    assert verdict.Onward? ==> z.rows == v.rows + [FreshRow(newId, run, verdict.next, "", a.params, now)];
    assert !verdict.Again? && !verdict.Onward? ==> z.rows == v.rows;
    hide Enact, Decide, RowsOk, PatchRow, FreshRow;
    if verdict.Again? { ReopenFreezesIff(v.rows, verdict.row, now); }
  }

  lemma ReopenFreezesIff(rows: seq<Row>, row: Row, now: nat)
    requires RowsOk(rows) && row in rows
    ensures Frozen(rows, PatchRow(rows, row.id, Reopen, now)) <==> row == Last(rows) && row.status in {Failed, Running}
  {
    var out := PatchRow(rows, row.id, Reopen, now);
    var k :| 0 <= k < |rows| && rows[k] == row;
    assert out[k].retryCount == row.retryCount + 1;
    assert Final(rows, k) <==> !(row == Last(rows) && row.status in {Failed, Running});
  }

  /** What the coordinator could check, but does not, before it acts on a verdict. */
  predicate Safe(rows: seq<Row>, verdict: Verdict) {
    match verdict
    case Again(row) => rows != [] && row == Last(rows) && row.status == Failed
    case Onward(next) => rows == [] || (Last(rows).status != Running && Rank(Last(rows).stage) < Rank(next))
    case _ => true
  }

  /** No row but a failed newest one changes. */
  ghost predicate Undisturbed(a: seq<Row>, b: seq<Row>) {
    forall i :: 0 <= i < |a| && !(i == |a| - 1 && a[i].status == Failed) ==> i < |b| && b[i] == a[i]
  }

  /** Acting on any response, honest or not, keeps the rows of the run it names in order and touches none
      but a failed newest one exactly when the verdict is safe. */
  lemma DisciplineKeptIff(v: View, u: View, run: nat, a: Advice, t: Option<Task>, newId: nat, now: nat)
    requires RowsOk(v.rows) && u.rows == v.rows && a.run == run && FreshFor(v, newId)
    ensures var verdict := Decide(v.rows, t, a.action);
            var after := Enact(u, run, a, verdict, t, newId, now).rows;
            RowsOk(after) && Undisturbed(v.rows, after) <==> Safe(v.rows, verdict)
  {
    var verdict := Decide(v.rows, t, a.action);
    var z := Enact(u, run, a, verdict, t, newId, now);
    assert verdict.Again? ==> verdict.row in v.rows && z.rows == PatchRow(v.rows, verdict.row.id, Reopen, now);
    assert verdict.Onward? ==> z.rows == v.rows + [FreshRow(newId, run, verdict.next, "", a.params, now)];
    assert !verdict.Again? && !verdict.Onward? ==> z.rows == v.rows;
    assert forall x :: x in v.rows ==> x.id < newId;
    assert verdict.Again? ==> verdict.row.retryCount < MAX_STAGE_RETRIES;
    hide Enact, Decide, FreshFor, RowsOk, PatchRow;
    match verdict {
      case Again(row) => SafeReopenIff(v.rows, row, now);
      case Onward(next) => AppendKeepsIff(v.rows, FreshRow(newId, run, next, "", a.params, now), newId);
      case _ =>
    }
  }

  lemma SafeReopenIff(rows: seq<Row>, row: Row, now: nat)
    requires RowsOk(rows) && row in rows && row.retryCount < MAX_STAGE_RETRIES
    ensures var after := PatchRow(rows, row.id, Reopen, now);
            RowsOk(after) && Undisturbed(rows, after) <==> row == Last(rows) && row.status == Failed
  {
    ReopenKeepsIff(rows, row, now);
    if row == Last(rows) { PatchLast(rows, Reopen, now); }
    hide RowsOk, PatchRow;
  }

  /** What any environment grants: fresh ids, a monotone clock, and that the context of a response is what
      the shared tables hold. */
  ghost predicate Feasible(v: View, run: nat, e: Event) {
    match e
    case Recover(a, c, newId, now) => FreshFor(v, newId) && NotBefore(v, now) && Sees(v, run, a, c, newId)
    case Delete(_) => true
    case _ => Allowed(v, run, e)
  }

  /** A consumed response is admissible in this run and reopens only a failed row of it; an empty id is not
      deleted while the run is intact. */
  ghost predicate Tolerable(v: View, run: nat, e: Event) {
    match e
    case Recover(a, c, _, _) =>
      c.pending ==>
        var verdict := Decide(c.rows, c.task, a.action);
        && Admissible(v.(pend := v.pend - {a.request}), run, a, c.task, verdict)
        && (run == a.run && verdict.Again? ==> verdict.row.status == Failed)
    case Delete(root) => root != 0 || !Intact(v)
    case _ => true
  }

  /** The invariant is kept, and the closed rows are unless all are deleted. */
  ghost predicate Kept(v: View, z: View) {
    Inv(z) && (z.rows == [] || Frozen(v.rows, z.rows))
  }

  lemma ResponseKeepsIff(v: View, run: nat, a: Advice, c: Context, newId: nat, now: nat)
    requires Inv(v) && FreshFor(v, newId) && Sees(v, run, a, c, newId)
    ensures Kept(v, OnRecovery(v, run, a, c, newId, now)) <==> Tolerable(v, run, Recover(a, c, newId, now))
  {
    var z := OnRecovery(v, run, a, c, newId, now);
    if c.pending {
      var u := v.(pend := v.pend - {a.request});
      assert RowsOk(v.rows) && z == Enact(u, run, a, Decide(c.rows, c.task, a.action), c.task, newId, now);
      assert z.rows == [] ==> v.rows == [];
      assert a.run == run ==> c.rows == v.rows;
      assert a.run != run ==> z.rows == v.rows;
      RecoverKeepsIff(v, run, a, c, newId, now);
      hide Inv, OnRecovery, Enact, Decide, Final, FreshFor, RowsOk, Sees;
      if a.run == run { ClosedRowsKeptIff(v, u, run, a, c.task, newId, now); }
    } else {
      assert z == v;
      hide Inv, OnRecovery, Enact, Decide;
    }
  }

  lemma MovesFreeze(a: seq<Row>, b: seq<Row>, m: Move)
    requires RowsOk(a) && Moves(a, b, m) && b != []
    ensures Frozen(a, b)
  {
    forall i: nat | Final(a, i) ensures i < |b| && b[i] == a[i] {
      hide RowsOk, Moves;
      FinalStays(a, b, m, i);
    }
  }

  lemma AllowedKept(v: View, run: nat, e: Event)
    requires Inv(v) && run != 0 && Allowed(v, run, e)
    ensures Kept(v, Step(v, run, e))
  {
    assert RowsOk(v.rows);
    hide Inv, Step, Allowed, MoveOf, RowsOk, Moves, Frozen;
    StepKeeps(v, run, e);
    StepMoves(v, run, e);
    if Step(v, run, e).rows != [] { MovesFreeze(v.rows, Step(v, run, e).rows, MoveOf(v, e)); }
  }

  /** One step from any state with the invariant keeps it and the closed rows exactly when the event is
      tolerable. */
  lemma StepKeptIff(v: View, run: nat, e: Event)
    requires Inv(v) && run != 0 && Feasible(v, run, e)
    ensures Kept(v, Step(v, run, e)) <==> Tolerable(v, run, e)
  {
    match e {
      case Recover(a, c, newId, now) => ResponseKeepsIff(v, run, a, c, newId, now);
      case Delete(root) =>
        DeleteKeepsIff(v, run, root);
        assert Step(v, run, e).rows in {v.rows, []};
        hide Inv;
      case _ =>
        hide Kept, Allowed;
        AllowedKept(v, run, e);
    }
  }

  ghost predicate AllFeasible(run: nat, es: seq<Event>) {
    es == [] || (AllFeasible(run, Front(es)) && Feasible(Replay(run, Front(es)), run, Last(es)))
  }

  ghost predicate AllTolerable(run: nat, es: seq<Event>) {
    es == [] || (AllTolerable(run, Front(es)) && Tolerable(Replay(run, Front(es)), run, Last(es)))
  }

  ghost predicate AllKept(run: nat, es: seq<Event>) {
    es == [] || (AllKept(run, Front(es)) && Kept(Replay(run, Front(es)), Replay(run, es)))
  }

  /** A history keeps the invariant and the closed rows at every step exactly when each of its events is
      tolerable where it happens. */
  lemma {:induction false} HistoryKeptIff(run: nat, es: seq<Event>)
    requires run != 0 && AllFeasible(run, es)
    ensures AllKept(run, es) <==> AllTolerable(run, es)
    ensures AllKept(run, es) ==> Inv(Replay(run, es))
  {
    if es == [] {
      Reachable(run, []);
    } else {
      HistoryKeptIff(run, Front(es));
      if AllKept(run, Front(es)) {
        hide Step, Feasible, Tolerable;
        StepKeptIff(Replay(run, Front(es)), run, Last(es));
      }
      hide Inv, Step, Feasible, Tolerable;
    }
  }
}
