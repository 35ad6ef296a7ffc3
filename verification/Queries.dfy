/**
 * The dynamic query builders of task_db.rs and memory_db.rs: a WHERE clause is put together from
 * the filters that are present, each naming its value by the number of a placeholder. Running the
 * built query is proved to be the direct reading of the filters.
 *
 * A table is listed in the order its queries ask for (ORDER BY), so a filtered table is too.
 */
module Queries {
  import opened Basics
  import Like
  import Timestamps

  // ── Rows ───────────────────────────────────────────────────────────────────────────────────

  /** The text columns of a memories row and of a memory_tiers row. */
  datatype MemoryText = MemoryText(id: string, scope: string, category: string, key: string, tags: string,
                           agent: string, run: string, skill: string)
  datatype TierText = TierText(memory: string, tier: string, content: string)

  datatype Record =
    | TaskRecord(id: string, status: string, agent: string, parent: string)
    | EventRecord(id: string, name: string, direction: string, agent: string, createdAt: string)
    | MemoryRecord(memory: MemoryText)
    | JoinRecord(memory: MemoryText, tier: TierText)

  datatype Column =
    | Status | AgentId | ParentId | EventName | Direction | CreatedAt
    | Scope | Category | RunId | SkillId | Tags | Key | TierName | Content

  function Cell(r: Record, c: Column): string {
    match (r, c)
    case (TaskRecord(_, status, _, _), Status) => status
    case (TaskRecord(_, _, agent, _), AgentId) => agent
    case (TaskRecord(_, _, _, parent), ParentId) => parent
    case (EventRecord(_, name, _, _, _), EventName) => name
    case (EventRecord(_, _, direction, _, _), Direction) => direction
    case (EventRecord(_, _, _, agent, _), AgentId) => agent
    case (EventRecord(_, _, _, _, at), CreatedAt) => at
    case (JoinRecord(_, t), TierName) => t.tier
    case (JoinRecord(_, t), Content) => t.content
    case (MemoryRecord(m), _) => MemoryCell(m, c)
    case (JoinRecord(m, _), _) => MemoryCell(m, c)
    case _ => ""
  }

  function MemoryCell(m: MemoryText, c: Column): string {
    match c
    case Scope => m.scope
    case Category => m.category
    case AgentId => m.agent
    case RunId => m.run
    case SkillId => m.skill
    case Tags => m.tags
    case Key => m.key
    case _ => ""
  }

  // ── Queries ────────────────────────────────────────────────────────────────────────────────

  datatype Value = Text(text: string) | Number(number: nat)
  datatype Test =
    | Equals(c: Column) | AtLeast(c: Column) | AtMost(c: Column) | Has(c: Column) | EitherHas(c: Column, d: Column)

  /** One "AND ..." of the text; `param` is the number behind the question mark. */
  datatype Clause = Clause(test: Test, param: nat)

  /** `limit` and `offset` are placeholder numbers too; 0 stands for an absent one. */
  datatype Query = Query(clauses: seq<Clause>, params: seq<Value>, limit: nat, offset: nat)

  predicate Finds(text: string, word: string) {
    Like.Like(text, "%" + word + "%")
  }

  predicate Passes(t: Test, value: string, r: Record) {
    match t
    case Equals(c) => Cell(r, c) == value
    case AtLeast(c) => !Timestamps.Less(Cell(r, c), value)
    case AtMost(c) => !Timestamps.Less(value, Cell(r, c))
    case Has(c) => Finds(Cell(r, c), value)
    case EitherHas(c, d) => Finds(Cell(r, c), value) || Finds(Cell(r, d), value)
  }

  /** A placeholder that is not bound to text is NULL, and no comparison with NULL holds. */
  predicate Holds(c: Clause, params: seq<Value>, r: Record) {
    1 <= c.param <= |params| && params[c.param - 1].Text? && Passes(c.test, params[c.param - 1].text, r)
  }

  predicate Where(clauses: seq<Clause>, params: seq<Value>, r: Record) {
    forall i :: 0 <= i < |clauses| ==> Holds(clauses[i], params, r)
  }

  function NumberAt(params: seq<Value>, p: nat, default: nat): nat {
    if 1 <= p <= |params| && params[p - 1].Number? then params[p - 1].number else default
  }

  function Select<T>(table: seq<T>, wanted: T -> bool): seq<T> {
    if table == [] then []
    else if wanted(Last(table)) then Select(Front(table), wanted) + [Last(table)]
    else Select(Front(table), wanted)
  }

  /** LIMIT limit OFFSET offset */
  function Page<T>(rows: seq<T>, limit: nat, offset: nat): seq<T> {
    if offset >= |rows| then [] else if offset + limit >= |rows| then rows[offset..] else rows[offset..offset + limit]
  }

  function Selected(q: Query, table: seq<Record>): seq<Record> {
    Select(table, r => Where(q.clauses, q.params, r))
  }

  function Run(q: Query, table: seq<Record>): seq<Record> {
    Page(Selected(q, table), NumberAt(q.params, q.limit, |table|), NumberAt(q.params, q.offset, 0))
  }

  /** The table is of one kind, as every table of the database is. */
  ghost predicate AllTasks(table: seq<Record>) {
    forall r: Record :: r in table ==> r.TaskRecord?
  }

  ghost predicate AllEvents(table: seq<Record>) {
    forall r: Record :: r in table ==> r.EventRecord?
  }

  ghost predicate AllMemories(table: seq<Record>) {
    forall r: Record :: r in table ==> r.MemoryRecord?
  }

  // ── What a listing is ──────────────────────────────────────────────────────────────────────

  /** The places of all the rows that are wanted, in the order of the table. */
  ghost predicate Places<T>(at: seq<nat>, table: seq<T>, wanted: T -> bool) {
    && (forall i, j :: 0 <= i < j < |at| ==> at[i] < at[j])
    && (forall i :: 0 <= i < |at| ==> at[i] < |table| && wanted(table[at[i]]))
    && (forall n :: 0 <= n < |table| && wanted(table[n]) ==> n in at)
  }

  /** Of the rows that stand at these places: from the offset on, at most so many. */
  ghost predicate Cut<T>(out: seq<T>, table: seq<T>, at: seq<nat>, limit: nat, offset: nat)
    requires forall i :: 0 <= i < |at| ==> at[i] < |table|
  {
    && |out| == (if |at| <= offset then 0 else if |at| <= offset + limit then |at| - offset else limit)
    && forall i :: 0 <= i < |out| ==> out[i] == table[at[offset + i]]
  }

  /** Of the rows that are wanted, in the order of the table: from the offset on, at most so many. */
  ghost predicate Lists<T>(out: seq<T>, table: seq<T>, wanted: T -> bool, limit: nat, offset: nat) {
    exists at :: Places(at, table, wanted) && Cut(out, table, at, limit, offset)
  }

  /** So many rows are wanted. */
  ghost predicate Counts<T>(count: nat, table: seq<T>, wanted: T -> bool) {
    exists at :: Places(at, table, wanted) && |at| == count
  }

  /** The last row is wanted and its place is the last, or it is not and all places lie before it. */
  lemma PlacesFront<T>(at: seq<nat>, table: seq<T>, wanted: T -> bool)
    requires Places(at, table, wanted) && table != []
    ensures wanted(Last(table)) ==> at != [] && Last(at) == |table| - 1 && Places(Front(at), Front(table), wanted)
    ensures !wanted(Last(table)) ==> Places(at, Front(table), wanted)
  {
    var n := |table| - 1;
    if wanted(table[n]) {
      LastPlace(at, table, wanted);
      forall m | 0 <= m < n && wanted(table[m]) ensures m in Front(at) { OtherPlace(at, m); }
    }
  }

  lemma LastPlace<T>(at: seq<nat>, table: seq<T>, wanted: T -> bool)
    requires Places(at, table, wanted) && table != [] && wanted(Last(table))
    ensures at != [] && Last(at) == |table| - 1
  {
    var k :| 0 <= k < |at| && at[k] == |table| - 1;
  }

  lemma OtherPlace(at: seq<nat>, m: nat)
    requires at != [] && m in at && m != Last(at)
    ensures m in Front(at)
  {
    var i :| 0 <= i < |at| && at[i] == m;
    assert Front(at)[i] == m;
  }

  lemma PlacesFew<T>(at: seq<nat>, table: seq<T>, wanted: T -> bool)
    requires Places(at, table, wanted)
    ensures at != [] ==> table != []
  {
    if at != [] { assert at[0] < |table|; }
  }

  lemma {:induction false} PlacesSelect<T>(at: seq<nat>, table: seq<T>, wanted: T -> bool)
    requires Places(at, table, wanted)
    ensures |Select(table, wanted)| == |at|
    ensures forall i :: 0 <= i < |at| ==> at[i] < |table| && Select(table, wanted)[i] == table[at[i]]
  {
    if table == [] {
      PlacesFew(at, table, wanted);
    } else {
      PlacesFront(at, table, wanted);
      hide Places;
      if wanted(Last(table)) {
        PlacesSelect(Front(at), Front(table), wanted);
        assert at == Front(at) + [Last(at)];
      } else {
        PlacesSelect(at, Front(table), wanted);
      }
    }
  }

  lemma {:induction false} SomePlaces<T>(table: seq<T>, wanted: T -> bool) returns (at: seq<nat>)
    ensures Places(at, table, wanted)
  {
    at := [];
    if table != [] {
      at := SomePlaces(Front(table), wanted);
      if wanted(Last(table)) { at := at + [|table| - 1]; }
    }
  }

  lemma CutIff<T>(out: seq<T>, table: seq<T>, at: seq<nat>, rows: seq<T>, limit: nat, offset: nat)
    requires |rows| == |at| && forall i :: 0 <= i < |at| ==> at[i] < |table| && rows[i] == table[at[i]]
    ensures Cut(out, table, at, limit, offset) <==> out == Page(rows, limit, offset)
  {
    var page := Page(rows, limit, offset);
    assert forall i :: 0 <= i < |page| ==> page[i] == rows[offset + i];
    if Cut(out, table, at, limit, offset) {
      assert |out| == |page|;
      assert forall i :: 0 <= i < |out| ==> out[i] == page[i];
    }
  }

  /** Selecting and cutting out a page is listing. */
  lemma ListsIff<T>(out: seq<T>, table: seq<T>, wanted: T -> bool, limit: nat, offset: nat)
    ensures Lists(out, table, wanted, limit, offset) <==> out == Page(Select(table, wanted), limit, offset)
    ensures Counts(|Select(table, wanted)|, table, wanted)
  {
    var rows := Select(table, wanted);
    var some := SomePlaces(table, wanted);
    PlacesSelect(some, table, wanted);
    CutIff(out, table, some, rows, limit, offset);
    hide Select, Page;
    if Lists(out, table, wanted, limit, offset) {
      var at :| Places(at, table, wanted) && Cut(out, table, at, limit, offset);
      PlacesSelect(at, table, wanted);
      CutIff(out, table, at, rows, limit, offset);
    }
    hide Places, Cut;
  }

  // ── Building ───────────────────────────────────────────────────────────────────────────────

  predicate WellFormed(clauses: seq<Clause>, params: seq<Value>) {
    forall i :: 0 <= i < |clauses| ==> 1 <= clauses[i].param <= |params|
  }

  /** `sql.push_str(" AND ... ?n")` and `params.push(value)`, for one filter. */
  method Push(clauses: seq<Clause>, params: seq<Value>, test: Test, value: string)
    returns (c: seq<Clause>, p: seq<Value>)
    requires WellFormed(clauses, params)
    ensures c == clauses + [Clause(test, |params| + 1)] && p == params + [Text(value)] && WellFormed(c, p)
    ensures forall r :: Where(c, p, r) <==> Where(clauses, params, r) && Passes(test, value, r)
  {
    c, p := clauses + [Clause(test, |params| + 1)], params + [Text(value)];
    forall r ensures Where(c, p, r) <==> Where(clauses, params, r) && Passes(test, value, r) {
      PushedClause(clauses, params, test, value, r);
    }
  }

  lemma PushedClause(clauses: seq<Clause>, params: seq<Value>, test: Test, value: string, r: Record)
    requires WellFormed(clauses, params)
    ensures Where(clauses + [Clause(test, |params| + 1)], params + [Text(value)], r) <==>
            Where(clauses, params, r) && Passes(test, value, r)
  {
    var c, p := clauses + [Clause(test, |params| + 1)], params + [Text(value)];
    hide Passes;
    forall i | 0 <= i < |clauses| ensures Holds(c[i], p, r) <==> Holds(clauses[i], params, r) {}
    assert c[|clauses|] == Clause(test, |params| + 1) && p[|params|] == Text(value);
    if Where(c, p, r) {
      forall i | 0 <= i < |clauses| ensures Holds(clauses[i], params, r) { assert Holds(c[i], p, r); }
      assert Holds(c[|clauses|], p, r);
    }
  }

  /** A filter that may be absent. */
  method PushIf(clauses: seq<Clause>, params: seq<Value>, test: Test, value: Option<string>)
    returns (c: seq<Clause>, p: seq<Value>)
    requires WellFormed(clauses, params)
    ensures WellFormed(c, p)
    ensures forall r :: Where(c, p, r) <==> Where(clauses, params, r) && (value.Some? ==> Passes(test, value.value, r))
  {
    c, p := clauses, params;
    if value.Some? {
      c, p := Push(clauses, params, test, value.value);
    }
  }

  lemma BoundLater(clauses: seq<Clause>, params: seq<Value>, more: seq<Value>, r: Record)
    requires WellFormed(clauses, params)
    ensures Where(clauses, params + more, r) <==> Where(clauses, params, r)
  {
    forall i | 0 <= i < |clauses| ensures Holds(clauses[i], params + more, r) <==> Holds(clauses[i], params, r) {}
  }

  lemma {:induction false} SelectSame(table: seq<Record>, p: Record -> bool, q: Record -> bool)
    requires forall r :: r in table ==> (p(r) <==> q(r))
    ensures Select(table, p) == Select(table, q)
  {
    if table != [] { SelectSame(Front(table), p, q); }
  }

  /** Completing a query with its limit and offset. */
  lemma Completed(clauses: seq<Clause>, params: seq<Value>, limit: nat, offset: nat, wanted: Record -> bool,
                  table: seq<Record>)
    requires WellFormed(clauses, params)
    requires forall r :: r in table ==> (Where(clauses, params, r) <==> wanted(r))
    ensures var q := Query(clauses, params + [Number(limit), Number(offset)], |params| + 1, |params| + 2);
            Lists(Run(q, table), table, wanted, limit, offset)
    ensures var q := Query(clauses, params + [Number(limit)], |params| + 1, 0);
            Lists(Run(q, table), table, wanted, limit, 0)
    ensures Counts(|Selected(Query(clauses, params, 0, 0), table)|, table, wanted)
  {
    forall r { BoundLater(clauses, params, [Number(limit), Number(offset)], r); }
    forall r { BoundLater(clauses, params, [Number(limit)], r); }
    SelectSame(table, r => Where(clauses, params + [Number(limit), Number(offset)], r), wanted);
    SelectSame(table, r => Where(clauses, params + [Number(limit)], r), wanted);
    SelectSame(table, r => Where(clauses, params, r), wanted);
    var selected := Select(table, wanted);
    ListsIff(Page(selected, limit, offset), table, wanted, limit, offset);
    ListsIff(Page(selected, limit, 0), table, wanted, limit, 0);
    hide Where, Select, Lists, Counts;
  }

  // ── list_tasks ─────────────────────────────────────────────────────────────────────────────

  predicate WantedTask(status: Option<string>, agent: Option<string>, parent: Option<string>, r: Record) {
    && r.TaskRecord?
    && (status.Some? ==> r.status == status.value)
    && (agent.Some? ==> r.agent == agent.value)
    && (parent.Some? ==> r.parent == parent.value)
  }

  function TaskTest(status: Option<string>, agent: Option<string>, parent: Option<string>): Record -> bool {
    r => WantedTask(status, agent, parent, r)
  }

  method ListTasks(limit: nat, status: Option<string>, agent: Option<string>, parent: Option<string>) returns (q: Query)
    ensures forall table :: AllTasks(table) ==>
              Lists(Run(q, table), table, TaskTest(status, agent, parent), limit, 0)
  {
    var clauses, params := [], [];
    clauses, params := PushIf(clauses, params, Equals(Status), status);
    clauses, params := PushIf(clauses, params, Equals(AgentId), agent);
    clauses, params := PushIf(clauses, params, Equals(ParentId), parent);
    forall table | AllTasks(table) {
      Completed(clauses, params, limit, 0, TaskTest(status, agent, parent), table);
    }
    params := params + [Number(limit)];
    q := Query(clauses, params, |params|, 0);
  }

  // ── list_socket_events and count_socket_events ─────────────────────────────────────────────

  datatype EventFilter = EventFilter(agent: Option<string>, name: Option<string>, direction: Option<string>,
                                     since: Option<string>, until: Option<string>)

  predicate WantedEvent(f: EventFilter, r: Record) {
    && r.EventRecord?
    && (f.agent.Some? ==> r.agent == f.agent.value)
    && (f.name.Some? ==> r.name == f.name.value)
    && (f.direction.Some? ==> r.direction == f.direction.value)
    && (f.since.Some? ==> !Timestamps.Less(r.createdAt, f.since.value))
    && (f.until.Some? ==> !Timestamps.Less(f.until.value, r.createdAt))
  }

  function EventTest(f: EventFilter): Record -> bool {
    r => WantedEvent(f, r)
  }

  method EventClauses(f: EventFilter) returns (clauses: seq<Clause>, params: seq<Value>)
    ensures WellFormed(clauses, params)
    ensures forall r: Record :: r.EventRecord? ==> (Where(clauses, params, r) <==> WantedEvent(f, r))
  {
    clauses, params := [], [];
    clauses, params := PushIf(clauses, params, Equals(AgentId), f.agent);
    clauses, params := PushIf(clauses, params, Equals(EventName), f.name);
    clauses, params := PushIf(clauses, params, Equals(Direction), f.direction);
    clauses, params := PushIf(clauses, params, AtLeast(CreatedAt), f.since);
    clauses, params := PushIf(clauses, params, AtMost(CreatedAt), f.until);
    hide Where, Timestamps.Less;
  }

  function PrintedBound(bound: Option<Timestamps.Instant>): Option<string> {
    if bound.Some? then Some(Timestamps.Print(bound.value)) else None
  }

  /** Bounds printed as the king prints its stamps select the events of the interval. */
  lemma WindowIsTime(f: EventFilter, r: Record, at: Timestamps.Instant,
                     since: Option<Timestamps.Instant>, until: Option<Timestamps.Instant>)
    requires Timestamps.Real(at) && r.EventRecord? && r.createdAt == Timestamps.Print(at)
    requires f.since == PrintedBound(since) && (since.Some? ==> Timestamps.Real(since.value))
    requires f.until == PrintedBound(until) && (until.Some? ==> Timestamps.Real(until.value))
    ensures WantedEvent(f, r) <==>
            && WantedEvent(f.(since := None, until := None), r)
            && (since.Some? ==> Timestamps.Time(since.value) <= Timestamps.Time(at))
            && (until.Some? ==> Timestamps.Time(at) <= Timestamps.Time(until.value))
  {
    hide Timestamps.Less, Timestamps.Print, Timestamps.Time, Timestamps.Real;
    if since.Some? { Timestamps.TextOrderIsTimeOrder(at, since.value); }
    if until.Some? { Timestamps.TextOrderIsTimeOrder(until.value, at); }
  }

  /** Bounds that end in Z select the same events of a table exactly when no stamp falls in the second
      of a bound with a fraction that begins like it, or begins like it and goes on. */
  lemma ZuluWindow(f: EventFilter, r: Record, at: Timestamps.Instant,
                   since: Timestamps.Instant, until: Timestamps.Instant)
    requires Timestamps.Real(at) && Timestamps.Real(since) && Timestamps.Real(until)
    requires r.EventRecord? && r.createdAt == Timestamps.Print(at) && WantedEvent(f.(since := None, until := None), r)
    ensures var z := f.(since := Some(Timestamps.PrintZulu(since)), until := None);
            (WantedEvent(z, r) <==> Timestamps.Time(since) <= Timestamps.Time(at)) <==>
            !(Timestamps.SameSecond(at, since) && Timestamps.Fraction(since.nanos) <= Timestamps.Fraction(at.nanos))
    ensures var z := f.(since := None, until := Some(Timestamps.PrintZulu(until)));
            (WantedEvent(z, r) <==> Timestamps.Time(at) <= Timestamps.Time(until)) <==>
            !(Timestamps.SameSecond(at, until) && Timestamps.Fraction(until.nanos) < Timestamps.Fraction(at.nanos))
  {
    Timestamps.ZuluWindowIff(at, since, until);
    hide Timestamps.Less, Timestamps.Print, Timestamps.PrintZulu, Timestamps.Fraction, Timestamps.Time;
  }

  method ListSocketEvents(limit: nat, offset: nat, f: EventFilter) returns (q: Query)
    ensures forall table :: AllEvents(table) ==>
              Lists(Run(q, table), table, EventTest(f), limit, offset)
  {
    var clauses, params := EventClauses(f);
    forall table | AllEvents(table) {
      Completed(clauses, params, limit, offset, EventTest(f), table);
    }
    ghost var start := params;
    params := params + [Number(limit)];
    var limitIdx := |params|;
    params := params + [Number(offset)];
    assert params == start + [Number(limit), Number(offset)];
    q := Query(clauses, params, limitIdx, |params|);
  }

  /** SELECT COUNT(*): the number of selected rows. */
  method CountSocketEvents(f: EventFilter) returns (q: Query)
    ensures forall table :: AllEvents(table) ==>
              Counts(|Selected(q, table)|, table, EventTest(f))
  {
    var clauses, params := EventClauses(f);
    forall table | AllEvents(table) {
      Completed(clauses, params, 0, 0, EventTest(f), table);
    }
    q := Query(clauses, params, 0, 0);
  }

  function Flat<T>(pages: seq<seq<T>>): seq<T> {
    if pages == [] then [] else Flat(Front(pages)) + Last(pages)
  }

  lemma {:induction false} PagesPrefix<T>(rows: seq<T>, k: nat, pages: seq<seq<T>>)
    requires forall i :: 0 <= i < |pages| ==> pages[i] == Page(rows, k, i * k)
    ensures Flat(pages) == if |pages| * k >= |rows| then rows else rows[..|pages| * k]
  {
    if pages != [] {
      var n := |pages|;
      PagesPrefix(rows, k, Front(pages));
      assert n * k == (n - 1) * k + k && Last(pages) == pages[n - 1];
    }
  }

  /** Pages of k rows that cover the counted number, one after the other, are the whole listing: every wanted
      row once, in order. */
  lemma PagesCoverTheCount<T>(table: seq<T>, wanted: T -> bool, k: nat, pages: seq<seq<T>>, count: nat)
    requires forall i :: 0 <= i < |pages| ==> Lists(pages[i], table, wanted, k, i * k)
    requires Counts(count, table, wanted) && |pages| * k >= count
    ensures Lists(Flat(pages), table, wanted, count, 0)
  {
    var rows := Select(table, wanted);
    hide Lists, Select, Places, Page;
    forall i | 0 <= i < |pages| ensures pages[i] == Page(rows, k, i * k) {
      ListsIff(pages[i], table, wanted, k, i * k);
    }
    var at :| Places(at, table, wanted) && |at| == count;
    PlacesSelect(at, table, wanted);
    PagesPrefix(rows, k, pages);
    ListsIff(Flat(pages), table, wanted, count, 0);
    WholePage(rows);
  }

  lemma WholePage<T>(rows: seq<T>)
    ensures Page(rows, |rows|, 0) == rows
  {
  }

  // ── list_memories ──────────────────────────────────────────────────────────────────────────

  datatype MemoryFilter = MemoryFilter(scope: Option<string>, category: Option<string>, agent: Option<string>,
                                       run: Option<string>, skill: Option<string>, tag: Option<string>)

  predicate WantedMemory(f: MemoryFilter, r: Record) {
    && r.MemoryRecord?
    && (f.scope.Some? ==> r.memory.scope == f.scope.value)
    && (f.category.Some? ==> r.memory.category == f.category.value)
    && (f.agent.Some? ==> r.memory.agent == f.agent.value)
    && (f.run.Some? ==> r.memory.run == f.run.value)
    && (f.skill.Some? ==> r.memory.skill == f.skill.value)
    && (f.tag.Some? ==> Like.Like(r.memory.tags, "%" + f.tag.value + "%"))
  }

  function MemoryTest(f: MemoryFilter): Record -> bool {
    r => WantedMemory(f, r)
  }

  method MemoryClauses(f: MemoryFilter) returns (clauses: seq<Clause>, params: seq<Value>)
    ensures WellFormed(clauses, params)
    ensures forall r: Record :: r.MemoryRecord? ==> (Where(clauses, params, r) <==> WantedMemory(f, r))
  {
    clauses, params := [], [];
    clauses, params := PushIf(clauses, params, Equals(Scope), f.scope);
    clauses, params := PushIf(clauses, params, Equals(Category), f.category);
    clauses, params := PushIf(clauses, params, Equals(AgentId), f.agent);
    clauses, params := PushIf(clauses, params, Equals(RunId), f.run);
    clauses, params := PushIf(clauses, params, Equals(SkillId), f.skill);
    clauses, params := PushIf(clauses, params, Has(Tags), f.tag);
    hide Where;
  }

  method ListMemories(limit: nat, f: MemoryFilter) returns (q: Query)
    ensures forall table :: AllMemories(table) ==>
              Lists(Run(q, table), table, MemoryTest(f), limit, 0)
  {
    var clauses, params := MemoryClauses(f);
    forall table | AllMemories(table) {
      Completed(clauses, params, limit, 0, MemoryTest(f), table);
    }
    q := Query(clauses, params + [Number(limit)], |params| + 1, 0);
  }

  // ── search_memories ────────────────────────────────────────────────────────────────────────

  /** FROM memories m INNER JOIN memory_tiers mt ON m.id = mt.memory_id WHERE ...: one copy of the
      memory for each of its tiers that passes. */
  function Hits(m: MemoryText, tiers: seq<TierText>, q: Query): seq<MemoryText> {
    if tiers == [] then []
    else
      var t := Last(tiers);
      if t.memory == m.id && Where(q.clauses, q.params, JoinRecord(m, t)) then Hits(m, Front(tiers), q) + [m]
      else Hits(m, Front(tiers), q)
  }

  function Joined(memories: seq<MemoryText>, tiers: seq<TierText>, q: Query): seq<MemoryText> {
    if memories == [] then []
    else Joined(Front(memories), tiers, q) + Hits(Last(memories), tiers, q)
  }

  /** SELECT DISTINCT */
  function Distinct(ms: seq<MemoryText>): seq<MemoryText> {
    if ms == [] then []
    else if Last(ms) in Front(ms) then Distinct(Front(ms))
    else Distinct(Front(ms)) + [Last(ms)]
  }

  function RunJoined(q: Query, memories: seq<MemoryText>, tiers: seq<TierText>): seq<MemoryText> {
    var rows := Distinct(Joined(memories, tiers, q));
    Page(rows, NumberAt(q.params, q.limit, |rows|), 0)
  }

  /** One tier of the memory satisfies the tier filter and, together with the key, every word. */
  predicate TierAnswers(m: MemoryText, t: TierText, words: seq<string>, tier: Option<string>) {
    && t.memory == m.id
    && (tier.Some? ==> t.tier == tier.value)
    && (forall i :: 0 <= i < |words| ==>
          Like.Like(t.content, "%" + words[i] + "%") || Like.Like(m.key, "%" + words[i] + "%"))
  }

  predicate Answers(m: MemoryText, tiers: seq<TierText>, words: seq<string>, scope: Option<string>,
                    category: Option<string>,
                    agent: Option<string>, tier: Option<string>) {
    && (scope.Some? ==> m.scope == scope.value)
    && (category.Some? ==> m.category == category.value)
    && (agent.Some? ==> m.agent == agent.value)
    && (exists i :: 0 <= i < |tiers| && TierAnswers(m, tiers[i], words, tier))
  }

  lemma {:induction false} HitsAreCopies(m: MemoryText, tiers: seq<TierText>, q: Query)
    ensures forall i :: 0 <= i < |Hits(m, tiers, q)| ==> Hits(m, tiers, q)[i] == m
    ensures Hits(m, tiers, q) != [] <==>
            exists i :: 0 <= i < |tiers| && tiers[i].memory == m.id &&
                        Where(q.clauses, q.params, JoinRecord(m, tiers[i]))
  {
    if tiers != [] {
      hide Where;
      var front := Front(tiers);
      HitsAreCopies(m, front, q);
      assert forall i :: 0 <= i < |front| ==> front[i] == tiers[i];
    }
  }

  lemma {:induction false} DistinctCopies(ms: seq<MemoryText>, copies: seq<MemoryText>, m: MemoryText)
    requires m !in ms && forall i :: 0 <= i < |copies| ==> copies[i] == m
    ensures Distinct(ms + copies) == if copies == [] then Distinct(ms) else Distinct(ms) + [m]
  {
    if copies == [] {
      assert ms + copies == ms;
    } else {
      var front := Front(copies);
      assert (ms + copies)[..|ms + copies| - 1] == ms + front;
      DistinctCopies(ms, front, m);
      if front != [] { assert (ms + front)[|ms + front| - 1] == m; }
    }
  }

  lemma {:induction false} JoinedMembers(memories: seq<MemoryText>, tiers: seq<TierText>, q: Query, x: MemoryText)
    requires x in Joined(memories, tiers, q)
    ensures x in memories
  {
    if memories != [] {
      HitsAreCopies(Last(memories), tiers, q);
      if x in Joined(Front(memories), tiers, q) { JoinedMembers(Front(memories), tiers, q, x); }
    }
  }

  ghost predicate AllDifferent(memories: seq<MemoryText>) {
    forall i, j :: 0 <= i < j < |memories| ==> memories[i] != memories[j]
  }

  /** Each memory appears once, however many of its tiers pass. */
  lemma {:induction false} DistinctJoin(memories: seq<MemoryText>, tiers: seq<TierText>, q: Query,
                                        wanted: MemoryText -> bool)
    requires AllDifferent(memories)
    requires forall m :: wanted(m) <==>
      exists i :: 0 <= i < |tiers| && tiers[i].memory == m.id && Where(q.clauses, q.params, JoinRecord(m, tiers[i]))
    ensures Distinct(Joined(memories, tiers, q)) == Select(memories, wanted)
  {
    if memories != [] {
      hide Where;
      var front, m := Front(memories), Last(memories);
      DistinctJoin(front, tiers, q, wanted);
      HitsAreCopies(m, tiers, q);
      if m in Joined(front, tiers, q) { JoinedMembers(front, tiers, q, m); }
      DistinctCopies(Joined(front, tiers, q), Hits(m, tiers, q), m);
    }
  }

  function AnswerTest(tiers: seq<TierText>, words: seq<string>, scope: Option<string>, category: Option<string>,
                            agent: Option<string>, tier: Option<string>): MemoryText -> bool {
    m => Answers(m, tiers, words, scope, category, agent, tier)
  }

  /** What the clauses of a search say about one memory and one of its tiers. */
  predicate PairAnswers(m: MemoryText, t: TierText, words: seq<string>, scope: Option<string>, category: Option<string>,
                        agent: Option<string>, tier: Option<string>) {
    && (tier.Some? ==> t.tier == tier.value)
    && (forall i :: 0 <= i < |words| ==> Finds(t.content, words[i]) || Finds(m.key, words[i]))
    && (scope.Some? ==> m.scope == scope.value)
    && (category.Some? ==> m.category == category.value)
    && (agent.Some? ==> m.agent == agent.value)
  }

  method WordClauses(words: seq<string>, tier: Option<string>) returns (clauses: seq<Clause>, params: seq<Value>)
    ensures WellFormed(clauses, params)
    ensures forall m, t ::
              Where(clauses, params, JoinRecord(m, t)) <==> PairAnswers(m, t, words, None, None, None, tier)
  {
    clauses, params := [], [];
    clauses, params := PushIf(clauses, params, Equals(TierName), tier);
    for i := 0 to |words|
      invariant WellFormed(clauses, params)
      invariant forall m, t ::
                  Where(clauses, params, JoinRecord(m, t)) <==> PairAnswers(m, t, words[..i], None, None, None, tier)
    {
      hide Where, Finds;
      assert words[..i + 1] == words[..i] + [words[i]];
      clauses, params := Push(clauses, params, EitherHas(Content, Key), words[i]);
    }
    assert words[..|words|] == words;
  }

  method SearchClauses(words: seq<string>, scope: Option<string>, category: Option<string>, agent: Option<string>,
                       tier: Option<string>)
    returns (clauses: seq<Clause>, params: seq<Value>)
    ensures WellFormed(clauses, params)
    ensures forall m, t ::
              Where(clauses, params, JoinRecord(m, t)) <==> PairAnswers(m, t, words, scope, category, agent, tier)
  {
    clauses, params := WordClauses(words, tier);
    clauses, params := PushIf(clauses, params, Equals(Scope), scope);
    clauses, params := PushIf(clauses, params, Equals(Category), category);
    clauses, params := PushIf(clauses, params, Equals(AgentId), agent);
    hide Where, Finds;
  }

  /** A search without words lists memories by the filters and ignores the tier; with words it finds
      each memory that has one tier which, together with the key, contains them all. */
  method SearchMemories(words: seq<string>, limit: nat, scope: Option<string>, category: Option<string>,
                        agent: Option<string>, tier: Option<string>)
    returns (q: Query)
    ensures words == [] ==>
      forall table :: AllMemories(table) ==>
        Lists(Run(q, table), table, MemoryTest(MemoryFilter(scope, category, agent, None, None, None)), limit, 0)
    ensures words != [] ==>
      forall memories, tiers :: AllDifferent(memories) ==>
        Lists(RunJoined(q, memories, tiers), memories, AnswerTest(tiers, words, scope, category, agent, tier), limit, 0)
  {
    if words == [] {
      q := ListMemories(limit, MemoryFilter(scope, category, agent, None, None, None));
      return;
    }
    var clauses, params := SearchClauses(words, scope, category, agent, tier);
    q := Query(clauses, params + [Number(limit)], |params| + 1, 0);
    forall m, t
      ensures Where(q.clauses, q.params, JoinRecord(m, t)) <==> PairAnswers(m, t, words, scope, category, agent, tier)
    {
      BoundLater(clauses, params, [Number(limit)], JoinRecord(m, t));
    }
    hide Where, Finds;
    forall memories, tiers | AllDifferent(memories)
      ensures Lists(RunJoined(q, memories, tiers), memories, AnswerTest(tiers, words, scope, category, agent, tier),
                    limit, 0)
    {
      var wanted := AnswerTest(tiers, words, scope, category, agent, tier);
      DistinctJoin(memories, tiers, q, wanted);
      ListsIff(Page(Select(memories, wanted), limit, 0), memories, wanted, limit, 0);
    }
  }
}
