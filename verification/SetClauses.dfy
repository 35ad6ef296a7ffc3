/**
 * The statement that task_db.rs builds for update_task: SET parts for the values that are present,
 * numbered as they are pushed, and the id last.
 */
module SetClauses {
  import opened Basics

  datatype TaskText = TaskText(id: string, status: string, agent: string, payload: string, stage: string,
                               summary: string, updatedAt: string)
  datatype Field = Status | Agent | Payload | Stage | Summary | UpdatedAt
  datatype Assignment = Assignment(field: Field, param: nat)
  datatype Statement = Statement(sets: seq<Assignment>, params: seq<string>, idParam: nat)

  function With(t: TaskText, f: Field, value: string): TaskText {
    match f
    case Status => t.(status := value)
    case Agent => t.(agent := value)
    case Payload => t.(payload := value)
    case Stage => t.(stage := value)
    case Summary => t.(summary := value)
    case UpdatedAt => t.(updatedAt := value)
  }

  function Bound(params: seq<string>, p: nat): string {
    if 1 <= p <= |params| then params[p - 1] else ""
  }

  /** The SET parts, from left to right. */
  function Apply(sets: seq<Assignment>, params: seq<string>, t: TaskText): TaskText {
    if sets == [] then t
    else With(Apply(Front(sets), params, t), Last(sets).field, Bound(params, Last(sets).param))
  }

  function Execute(s: Statement, t: TaskText): TaskText {
    if t.id == Bound(s.params, s.idParam) then Apply(s.sets, s.params, t) else t
  }

  predicate WellFormed(sets: seq<Assignment>, params: seq<string>) {
    forall i :: 0 <= i < |sets| ==> 1 <= sets[i].param <= |params|
  }

  lemma {:induction false} BoundLater(sets: seq<Assignment>, params: seq<string>, more: string, t: TaskText)
    requires WellFormed(sets, params)
    ensures Apply(sets, params + [more], t) == Apply(sets, params, t)
  {
    if sets != [] {
      assert Last(sets) == sets[|sets| - 1];
      BoundLater(Front(sets), params, more, t);
    }
  }

  function WithIf(t: TaskText, f: Field, value: Option<string>): TaskText {
    if value.Some? then With(t, f, value.value) else t
  }

  method SetIf(sets: seq<Assignment>, params: seq<string>, f: Field, value: Option<string>)
    returns (newSets: seq<Assignment>, newParams: seq<string>)
    requires WellFormed(sets, params)
    ensures WellFormed(newSets, newParams)
    ensures forall t :: Apply(newSets, newParams, t) == WithIf(Apply(sets, params, t), f, value)
  {
    newSets, newParams := sets, params;
    if value.Some? {
      newParams := newParams + [value.value];
      newSets := newSets + [Assignment(f, |newParams|)];
      assert Front(newSets) == sets;
      forall t { BoundLater(sets, params, value.value, t); }
    }
  }

  /** The task with a new stamp and with those of the values that are present. */
  function Edited(t: TaskText, now: string, status: Option<string>, agent: Option<string>, payload: Option<string>,
                  stage: Option<string>, summary: Option<string>): TaskText
  {
    TaskText(t.id, OrElse(status, t.status), OrElse(agent, t.agent), OrElse(payload, t.payload), OrElse(stage, t.stage),
             OrElse(summary, t.summary), now)
  }

  /** Setting the present values one by one. */
  lemma OneByOne(t: TaskText, now: string, status: Option<string>, agent: Option<string>, payload: Option<string>,
                 stage: Option<string>, summary: Option<string>)
    ensures var u := WithIf(WithIf(With(t, UpdatedAt, now), Status, status), Agent, agent);
            WithIf(WithIf(WithIf(u, Payload, payload), Stage, stage), Summary, summary) ==
            Edited(t, now, status, agent, payload, stage, summary)
  {
    var u := With(t, UpdatedAt, now);
    assert u == Edited(t, now, None, None, None, None, None);
    u := WithIf(u, Status, status);
    assert u == Edited(t, now, status, None, None, None, None);
    u := WithIf(u, Agent, agent);
    assert u == Edited(t, now, status, agent, None, None, None);
    u := WithIf(u, Payload, payload);
    assert u == Edited(t, now, status, agent, payload, None, None);
    u := WithIf(u, Stage, stage);
  }

  method SetParts(now: string, status: Option<string>, agent: Option<string>, payload: Option<string>,
                  stage: Option<string>, summary: Option<string>)
    returns (sets: seq<Assignment>, params: seq<string>)
    ensures WellFormed(sets, params)
    ensures forall t {:trigger Apply(sets, params, t)} ::
              Apply(sets, params, t) == Edited(t, now, status, agent, payload, stage, summary)
  {
    sets, params := [Assignment(UpdatedAt, 1)], [now];
    assert Front(sets) == [];
    assert forall t {:trigger Apply(sets, params, t)} :: Apply(sets, params, t) == With(t, UpdatedAt, now);
    hide *;
    sets, params := SetIf(sets, params, Status, status);
    sets, params := SetIf(sets, params, Agent, agent);
    sets, params := SetIf(sets, params, Payload, payload);
    sets, params := SetIf(sets, params, Stage, stage);
    sets, params := SetIf(sets, params, Summary, summary);
    forall t {:trigger Apply(sets, params, t)}
      ensures Apply(sets, params, t) == Edited(t, now, status, agent, payload, stage, summary)
    {
      OneByOne(t, now, status, agent, payload, stage, summary);
    }
  }

  /** The given values, and only they, replace those of the named task, whose stamp is renewed; every
      other task stays as it is. */
  method UpdateTask(now: string, id: string, status: Option<string>, agent: Option<string>, payload: Option<string>,
                    stage: Option<string>, summary: Option<string>)
    returns (s: Statement)
    ensures forall t ::
              Execute(s, t) == if t.id == id then Edited(t, now, status, agent, payload, stage, summary) else t
  {
    var sets, params := SetParts(now, status, agent, payload, stage, summary);
    hide Apply, Edited;
    forall t { BoundLater(sets, params, id, t); }
    params := params + [id];
    s := Statement(sets, params, |params|);
  }
}
